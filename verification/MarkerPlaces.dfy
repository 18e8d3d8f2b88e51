/** Where a marker says the line before it came from, and how often that place has been passed. */
module MarkerPlaces {
  import opened Common
  import opened Markers
  import opened MarkerParser

  /** The file that a marker names, or "unknown". */
  predicate NamesFile(cfg: Config, m: Marker, name: string) {
    (m.fileId in cfg.fileIds && name == cfg.fileIds[m.fileId]) || (m.fileId !in cfg.fileIds && name == "unknown")
  }

  /** Two markers of one line and column of what goes by the same name. */
  ghost predicate SamePlace(cfg: Config, a: Marker, b: Marker) {
    a.line == b.line && a.column == b.column && exists name :: NamesFile(cfg, a, name) && NamesFile(cfg, b, name)
  }

  lemma {:induction false} SameKey(cfg: Config, a: Marker, b: Marker)
    ensures KeyOf(cfg, a) == KeyOf(cfg, b) <==> SamePlace(cfg, a, b)
  {
    assert NamesFile(cfg, a, KeyOf(cfg, a).path) && NamesFile(cfg, b, KeyOf(cfg, b).path);
  }

  /** The positions of the markers so far that carry a key. */
  ghost function Passes(cfg: Config, markers: seq<Marker>, key: Key): set<int> {
    set i: int | 0 <= i < |markers| && KeyOf(cfg, markers[i]) == key
  }

  lemma {:induction false} OccurrencesArePasses(cfg: Config, markers: seq<Marker>, key: Key)
    ensures Occurrences(cfg, markers, key) == |Passes(cfg, markers, key)|
    decreases |markers|
  {
    hide KeyOf;
    if markers != [] {
      var n := |markers| - 1;
      OccurrencesArePasses(cfg, markers[..n], key);
      var before := Passes(cfg, markers[..n], key);
      assert Passes(cfg, markers, key) == if KeyOf(cfg, markers[n]) == key then before + {n} else before;
    }
  }

  /**
   * The k-th marker's location: its own file, line, column and loop, and how
   * many markers up to it, itself included, are of the same place.
   */
  lemma {:induction false} LocationIs(cfg: Config, markers: seq<Marker>, k: nat, passes: set<int>)
    requires k < |markers|
    requires forall i :: i in passes <==> 0 <= i <= k && SamePlace(cfg, markers[i], markers[k])
    ensures var m, location := markers[k], LocationAt(cfg, markers, k);
            && location.line == m.line && location.column == m.column && location.loopInfo == m.loopInfo
            && (location.path.Some? <==> m.fileId in cfg.fileIds)
            && (location.path.Some? ==> location.path.value == cfg.fileIds[m.fileId])
            && location.executionIndex == |passes| >= 1
  {
    hide KeyOf, SamePlace;
    var key := KeyOf(cfg, markers[k]);
    OccurrencesArePasses(cfg, markers[..k + 1], key);
    forall i: int | 0 <= i <= k
      ensures KeyOf(cfg, markers[i]) == key <==> SamePlace(cfg, markers[i], markers[k])
    {
      SameKey(cfg, markers[i], markers[k]);
    }
    assert Passes(cfg, markers[..k + 1], key) == passes;
    assert k in passes;
  }
}
