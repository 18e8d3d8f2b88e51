/** Who writes to a shared workspace, and which writes are stale. */
module Collab {
  import opened Common

  /** The uninterrupted suffix of writes from one session: who, and since which revision. */
  datatype Suffix<O> = Suffix(writer: O, start: nat)

  predicate WriterBaseOk<O(==)>(suffix: Option<Suffix<O>>, origin: O, base: Option<nat>, current: nat) {
    match base
    case None => true
    case Some(b) =>
      || b == current
      || (b < current && suffix.Some? && suffix.value.writer == origin && b >= suffix.value.start)
  }

  /** What `advance` stores once the write is accepted. */
  function NextSuffix<O(==)>(suffix: Option<Suffix<O>>, origin: O, current: nat): Option<Suffix<O>> {
    if suffix.None? || suffix.value.writer != origin then Some(Suffix(origin, current)) else suffix
  }

  // ---- against the log of accepted writes -------------------------------------

  /** Every write after revision `base` was made by `origin`. */
  predicate OnlyWriterSince<O(==)>(log: seq<O>, base: nat, origin: O) {
    forall j :: base <= j < |log| ==> log[j] == origin
  }

  /** The stored suffix is the longest one made by a single writer. */
  predicate IsMaximalSuffix<O(==)>(suffix: Option<Suffix<O>>, log: seq<O>) {
    if log == [] then suffix.None?
    else
      && suffix.Some?
      && suffix.value.start < |log|
      && OnlyWriterSince(log, suffix.value.start, suffix.value.writer)
      && (suffix.value.start > 0 ==> log[suffix.value.start - 1] != suffix.value.writer)
  }

  /** Each accepted write, whatever its base, keeps the stored suffix maximal. */
  lemma {:induction false} AdvanceKeepsMaximal<O>(suffix: Option<Suffix<O>>, log: seq<O>, origin: O)
    requires IsMaximalSuffix(suffix, log)
    ensures IsMaximalSuffix(NextSuffix(suffix, origin, |log|), log + [origin])
  {
    if log != [] {
      assert log[|log| - 1] == suffix.value.writer;
    }
  }

  /** No lost update: a write with a known base is accepted exactly when nobody else wrote since. */
  lemma {:induction false} AcceptedIffOwnSuffix<O>(suffix: Option<Suffix<O>>, log: seq<O>, origin: O, base: nat)
    requires IsMaximalSuffix(suffix, log)
    ensures WriterBaseOk(suffix, origin, Some(base), |log|) <==> base <= |log| && OnlyWriterSince(log, base, origin)
  {
    if base < |log| && OnlyWriterSince(log, base, origin) {
      assert log[|log| - 1] == origin == suffix.value.writer;
    }
  }

  lemma {:induction false} BaseIsGoodIff<O>(suffix: Option<Suffix<O>>, log: seq<O>, origin: O, base: Option<nat>)
    requires IsMaximalSuffix(suffix, log)
    ensures WriterBaseOk(suffix, origin, base, |log|) <==> base.None? || (base.value <= |log| && OnlyWriterSince(log, base.value, origin))
  {
    if base.Some? {
      AcceptedIffOwnSuffix(suffix, log, origin, base.value);
    }
  }

  // ---- the service ------------------------------------------------------------

  type Workspace = string
  type SessionId = string

  datatype WorkspaceChange =
    | Files(workspace: Workspace, origin: SessionId)
    | Peers(workspace: Workspace, count: nat)
    | Document(workspace: Workspace, origin: SessionId, path: string, source: Bytes, revision: nat)

  datatype Conflict = Conflict(current: nat)

  function Lookup<V>(m: map<Workspace, V>, w: Workspace): (v: Option<V>)
    ensures v.Some? <==> w in m
    ensures v.Some? ==> v.value == m[w]
  {
    if w in m then Some(m[w]) else None
  }

  function LookupOr<V>(m: map<Workspace, V>, w: Workspace, default: V): V {
    if w in m then m[w] else default
  }

  class Service {
    var peers: map<Workspace, set<SessionId>>
    var revisions: map<Workspace, nat>
    var writers: map<Workspace, Suffix<SessionId>>
    var changes: seq<WorkspaceChange>
    /** Who made each accepted write, oldest first. */
    ghost var accepted: map<Workspace, seq<SessionId>>

    ghost function Log(w: Workspace): seq<SessionId>
      reads this`accepted
    {
      LookupOr(accepted, w, [])
    }

    function Present(w: Workspace): set<SessionId>
      reads this`peers
    {
      LookupOr(peers, w, {})
    }

    /** The stored revision counts the accepted writes and the stored suffix is the maximal one. */
    ghost predicate Tracks(w: Workspace)
      reads this`revisions, this`writers, this`accepted
    {
      LookupOr(revisions, w, 0) == |Log(w)| && IsMaximalSuffix(Lookup(writers, w), Log(w))
    }

    ghost predicate Valid()
      reads this`peers, this`revisions, this`writers, this`accepted
    {
      && (forall w :: Tracks(w))
      && (forall w :: w in peers ==> peers[w] != {})
    }

    constructor ()
      ensures Valid() && changes == []
      ensures forall w :: Log(w) == [] && Present(w) == {}
    {
      peers, revisions, writers, changes, accepted := map[], map[], map[], [], map[];
    }

    method Join(w: Workspace, session: SessionId) returns (revision: nat)
      requires Valid()
      modifies this
      ensures Valid() && accepted == old(accepted) && writers == old(writers)
      ensures revision == |Log(w)|
      ensures Present(w) == old(Present(w)) + {session} && forall v :: v != w ==> Present(v) == old(Present(v))
      ensures changes == old(changes) + [Peers(w, |Present(w)|)]
    {
      hide IsMaximalSuffix;
      peers := peers[w := LookupOr(peers, w, {}) + {session}];
      assert old(Tracks(w));
      if w !in revisions {
        revisions := revisions[w := 0];
      }
      revision := revisions[w];
      changes := changes + [Peers(w, |peers[w]|)];
      assert forall v :: old(Tracks(v)) ==> Tracks(v);
    }

    method Leave(w: Workspace, session: SessionId)
      requires Valid()
      modifies this
      ensures Valid() && accepted == old(accepted) && writers == old(writers) && revisions == old(revisions)
      ensures Present(w) == old(Present(w)) - {session} && forall v :: v != w ==> Present(v) == old(Present(v))
      ensures changes == if old(Present(w)) == {} then old(changes) else old(changes) + [Peers(w, |Present(w)|)]
    {
      if w !in peers {
        return;
      }
      var rest := peers[w] - {session};
      var count := |rest|;
      if count == 0 {
        peers := peers - {w};
      } else {
        peers := peers[w := rest];
      }
      changes := changes + [Peers(w, count)];
    }

    method PeerCount(w: Workspace) returns (count: nat)
      ensures count == |Present(w)|
    {
      count := if w in peers then |peers[w]| else 0;
    }

    method Revision(w: Workspace) returns (revision: nat)
      requires Valid()
      ensures revision == |Log(w)|
    {
      assert Tracks(w);
      revision := LookupOr(revisions, w, 0);
    }

    /** Refuses exactly the writes that would overwrite somebody else's. */
    method CheckWriterBase(w: Workspace, origin: SessionId, base: Option<nat>) returns (r: Result<(), Conflict>)
      requires Valid()
      ensures r.Ok? <==> base.None? || (base.value <= |Log(w)| && OnlyWriterSince(Log(w), base.value, origin))
      ensures r.Err? ==> r.error.current == |Log(w)|
    {
      assert Tracks(w);
      var current := LookupOr(revisions, w, 0);
      BaseIsGoodIff(Lookup(writers, w), Log(w), origin, base);
      r := if WriterBaseOk(Lookup(writers, w), origin, base, current) then Ok(()) else Err(Conflict(current));
    }

    method Advance(w: Workspace, origin: SessionId, base: Option<nat>) returns (r: Result<nat, Conflict>)
      requires Valid()
      modifies this`writers, this`revisions, this`accepted
      ensures Valid()
      ensures r.Ok? <==> base.None? || (base.value <= |old(Log(w))| && OnlyWriterSince(old(Log(w)), base.value, origin))
      ensures r.Ok? ==> r.value == |Log(w)| && Log(w) == old(Log(w)) + [origin] && forall v :: v != w ==> Log(v) == old(Log(v))
      ensures r.Err? ==> r.error.current == |Log(w)| && accepted == old(accepted) && writers == old(writers) && revisions == old(revisions)
    {
      hide IsMaximalSuffix, OnlyWriterSince;
      assert Tracks(w);
      var current := LookupOr(revisions, w, 0);
      var suffix := Lookup(writers, w);
      BaseIsGoodIff(suffix, Log(w), origin, base);
      hide WriterBaseOk;
      if !WriterBaseOk(suffix, origin, base, current) {
        return Err(Conflict(current));
      }
      AdvanceKeepsMaximal(suffix, Log(w), origin);
      if suffix.None? || suffix.value.writer != origin {
        writers := writers[w := Suffix(origin, current)];
      }
      revisions := revisions[w := current + 1];
      accepted := accepted[w := Log(w) + [origin]];
      assert forall v :: old(Tracks(v)) ==> Tracks(v);
      r := Ok(current + 1);
    }

    method RecordFiles(w: Workspace, origin: SessionId, base: Option<nat>) returns (r: Result<nat, Conflict>)
      requires Valid()
      modifies this`writers, this`revisions, this`accepted, this`changes
      ensures Valid()
      ensures r.Ok? <==> base.None? || (base.value <= |old(Log(w))| && OnlyWriterSince(old(Log(w)), base.value, origin))
      ensures r.Ok? ==> r.value == |Log(w)| && Log(w) == old(Log(w)) + [origin] && changes == old(changes) + [Files(w, origin)]
      ensures r.Err? ==> Log(w) == old(Log(w)) && changes == old(changes)
    {
      r := Advance(w, origin, base);
      if r.Ok? {
        changes := changes + [Files(w, origin)];
      }
    }

    method RecordEdit(w: Workspace, origin: SessionId, path: string, source: Bytes, base: Option<nat>) returns (r: Result<nat, Conflict>)
      requires Valid()
      modifies this`writers, this`revisions, this`accepted, this`changes
      ensures Valid()
      ensures r.Ok? <==> base.None? || (base.value <= |old(Log(w))| && OnlyWriterSince(old(Log(w)), base.value, origin))
      ensures r.Ok? ==> r.value == |Log(w)| && Log(w) == old(Log(w)) + [origin]
                        && changes == old(changes) + [Document(w, origin, path, source, r.value)]
      ensures r.Err? ==> Log(w) == old(Log(w)) && changes == old(changes)
    {
      r := Advance(w, origin, base);
      if r.Ok? {
        changes := changes + [Document(w, origin, path, source, r.value)];
      }
    }
  }
}
