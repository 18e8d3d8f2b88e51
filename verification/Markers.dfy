/** The source markers in a program's output, and what stripping them means. */
module Markers {
  import opened Common
  import opened Text
  import opened Decimal

  const MARKER_START: byte := 0x1e
  const MARKER_END: byte := 0x1f
  const MAX_PENDING_MARKER: nat := 4096

  function Prefix(): (p: Bytes)
    ensures |p| == 12 && p[0] == MARKER_START
    ensures forall i :: 1 <= i < |p| ==> p[i] != MARKER_START && p[i] != MARKER_END
  {
    [MARKER_START] + Ascii("ATOMIS_LOG:")
  }

  datatype LoopInfo = LoopInfo(line: nat, column: nat, variable: Bytes, value: Bytes)

  datatype Marker = Marker(fileId: nat, line: nat, column: nat, loopInfo: Option<LoopInfo>)

  // ---- a marker's body ----------------------------------------------------------------

  /** A run of digits that fits 32 bits, and what follows it. */
  function TakeNumber(s: Bytes): Option<(nat, Bytes)> {
    var n := DigitCount(s);
    if n == 0 || Value(s[..n]) >= 0x1_0000_0000 then None else Some((Value(s[..n]), s[n..]))
  }

  function SkipColon(s: Bytes): Option<Bytes> {
    if s != [] && s[0] == 58 then Some(s[1..]) else None
  }

  predicate IsLetter(b: byte) {
    65 <= b <= 90 || 97 <= b <= 122 || b == 95
  }

  function VariableLength(s: Bytes): (n: nat)
    ensures n <= |s|
  {
    if s != [] && (IsLetter(s[0]) || IsDigit(s[0])) then 1 + VariableLength(s[1..]) else 0
  }

  /** loop_line:loop_column:variable:value */
  function ParseLoop(s: Bytes): Option<LoopInfo> {
    var line := TakeNumber(s);
    if line.None? then None else
    var s1 := SkipColon(line.value.1);
    if s1.None? then None else
    var column := TakeNumber(s1.value);
    if column.None? then None else
    var s2 := SkipColon(column.value.1);
    if s2.None? then None else
    var n := VariableLength(s2.value);
    if n == 0 || !IsLetter(s2.value[0]) then None else
    var value := SkipColon(s2.value[n..]);
    if value.None? then None else
    Some(LoopInfo(line.value.0, column.value.0, s2.value[..n], value.value))
  }

  /** file:line:column, and possibly a colon and the loop's part. */
  function ParseBody(body: Bytes): Option<Marker> {
    var file := TakeNumber(body);
    if file.None? then None else
    var s1 := SkipColon(file.value.1);
    if s1.None? then None else
    var line := TakeNumber(s1.value);
    if line.None? then None else
    var s2 := SkipColon(line.value.1);
    if s2.None? then None else
    var column := TakeNumber(s2.value);
    if column.None? then None else
    var rest := column.value.1;
    if rest == [] then Some(Marker(file.value.0, line.value.0, column.value.0, None)) else
    var s3 := SkipColon(rest);
    if s3.None? then None else
    var loopInfo := ParseLoop(s3.value);
    if loopInfo.None? then None else
    Some(Marker(file.value.0, line.value.0, column.value.0, loopInfo))
  }

  // ---- finding a marker in a buffer -----------------------------------------------------

  datatype Found = Found(start: nat, end: nat, marker: Marker)

  function Later(f: Option<Found>, shift: nat): Option<Found> {
    if f.Some? then Some(Found(f.value.start + shift, f.value.end + shift, f.value.marker)) else None
  }

  /** The first complete marker; a prefix whose end has not arrived hides everything after it. */
  function FirstMarker(buffer: Bytes): (f: Option<Found>)
    ensures f.Some? ==> f.value.start < f.value.end <= |buffer|
  {
    if buffer == [] then None
    else if Prefix() <= buffer then
      var end := IndexOf(buffer[12..], MARKER_END);
      if end.None? then None
      else
        var marker := ParseBody(buffer[12..12 + end.value]);
        if marker.Some? then Some(Found(0, 12 + end.value + 1, marker.value))
        else Later(FirstMarker(buffer[1..]), 1)
    else Later(FirstMarker(buffer[1..]), 1)
  }

  // ---- what stripping means, byte by byte -------------------------------------------------

  /**
   * A reader that keeps a bracketed stretch aside until it closes. `segments`
   * are the texts before each marker; the open one starts at `from`. `ok`
   * falls when a bracket is not closed in time, `oneLine` when a marker holds
   * a newline.
   */
  datatype Scan = Scan(text: Bytes, pending: Bytes, markers: seq<Marker>, segments: seq<Bytes>, from: nat, ok: bool, oneLine: bool)

  const START: Scan := Scan([], [], [], [], 0, true, true)

  /** A closed bracket that is a marker. */
  function Bracketed(open: Bytes): Option<Marker> {
    if Prefix() <= open then ParseBody(open[12..]) else None
  }

  function ScanByte(s: Scan, b: byte): Scan {
    if s.pending == [] then
      if b == MARKER_START then s.(pending := [b]) else s.(text := s.text + [b])
    else if b == MARKER_END then
      var marker := Bracketed(s.pending);
      if marker.Some? then
        s.(pending := [],
           markers := s.markers + [marker.value],
           segments := s.segments + [if s.from <= |s.text| then s.text[s.from..] else []],
           from := |s.text|,
           oneLine := s.oneLine && NEWLINE !in s.pending)
      else s.(text := s.text + s.pending + [b], pending := [])
    else
      s.(pending := s.pending + [b],
         ok := s.ok && b != MARKER_START && |s.pending| + 1 <= MAX_PENDING_MARKER)
  }

  function ScanAll(s: Scan, bytes: Bytes): Scan
    decreases |bytes|
  {
    if bytes == [] then s else ScanAll(ScanByte(s, bytes[0]), bytes[1..])
  }

  lemma {:induction false} ScanAppend(s: Scan, a: Bytes, b: Bytes)
    ensures ScanAll(s, a + b) == ScanAll(ScanAll(s, a), b)
    decreases |a|
  {
    if a == [] {
      assert a + b == b;
    } else {
      assert (a + b)[1..] == a[1..] + b;
      ScanAppend(ScanByte(s, a[0]), a[1..], b);
    }
  }

  /** Trouble stays, and markers are only ever added. */
  lemma {:induction false} ScanGrows(s: Scan, bytes: Bytes)
    ensures ScanAll(s, bytes).ok ==> s.ok
    ensures ScanAll(s, bytes).oneLine ==> s.oneLine
    ensures |s.markers| <= |ScanAll(s, bytes).markers|
    decreases |bytes|
  {
    if bytes != [] {
      ScanGrows(ScanByte(s, bytes[0]), bytes[1..]);
    }
  }

  // ---- which streams --------------------------------------------------------------------

  /** The bracket opened at `i` closes at `k`, soon enough and before another opens. */
  predicate ClosesAt(stream: Bytes, i: nat, k: nat) {
    && i < k < |stream| && k - i <= MAX_PENDING_MARKER
    && stream[k] == MARKER_END
    && forall j :: i < j < k ==> stream[j] != MARKER_START && stream[j] != MARKER_END
  }

  /** Every start byte is closed by an end byte within 4096 bytes and before the next start byte. */
  predicate WellBracketed(stream: Bytes) {
    forall i :: 0 <= i < |stream| && stream[i] == MARKER_START ==> exists k :: i < k < |stream| && ClosesAt(stream, i, k)
  }

  /** The scanner is inside the bracket opened at `i`. */
  lemma {:induction false} InsideBracket(stream: Bytes, i: nat, k: nat, n: nat, s: Scan)
    requires i < n <= k && ClosesAt(stream, i, k)
    requires s.ok && s.pending == stream[i..n]
    ensures ScanAll(s, stream[n..]) == ScanAll(ScanByte(s.(pending := stream[i..k]), MARKER_END), stream[k + 1..])
    decreases k - n
  {
    hide ScanByte;
    assert stream[n..][0] == stream[n] && stream[n..][1..] == stream[n + 1..];
    if n < k {
      InsideByte(stream, i, k, n, s);
      InsideBracket(stream, i, k, n + 1, ScanByte(s, stream[n]));
    }
  }

  lemma {:induction false} InsideByte(stream: Bytes, i: nat, k: nat, n: nat, s: Scan)
    requires i < n < k && ClosesAt(stream, i, k)
    requires s.ok && s.pending == stream[i..n]
    ensures ScanByte(s, stream[n]) == s.(pending := stream[i..n + 1])
  {
    hide Bracketed;
    assert stream[i..n] + [stream[n]] == stream[i..n + 1];
  }

  /** No marker in the stream has a newline in it. */
  ghost predicate MarkersOnOneLine(stream: Bytes) {
    forall i, k :: 0 <= i < k < |stream| && stream[i] == MARKER_START && ClosesAt(stream, i, k) && Bracketed(stream[i..k]).Some? ==>
      NEWLINE !in stream[i..k]
  }

  /** From the start byte to past the end byte, in one go. */
  lemma {:induction false} WholeBracket(stream: Bytes, i: nat, k: nat, s: Scan) returns (t: Scan)
    requires i < k && ClosesAt(stream, i, k) && stream[i] == MARKER_START && s.ok && s.pending == []
    ensures ScanAll(s, stream[i..]) == ScanAll(t, stream[k + 1..])
    ensures t.ok && t.pending == []
    ensures MarkersOnOneLine(stream) && s.oneLine ==> t.oneLine
  {
    assert stream[i..][0] == stream[i] && stream[i..][1..] == stream[i + 1..];
    assert stream[i..i + 1] == [stream[i]];
    InsideBracket(stream, i, k, i + 1, ScanByte(s, stream[i]));
    t := ScanByte(s.(pending := stream[i..k]), MARKER_END);
  }

  lemma {:induction false} WellBracketedFrom(stream: Bytes, i: nat, s: Scan)
    requires WellBracketed(stream) && i <= |stream| && s.ok && s.pending == []
    ensures ScanAll(s, stream[i..]).ok && ScanAll(s, stream[i..]).pending == []
    ensures MarkersOnOneLine(stream) && s.oneLine ==> ScanAll(s, stream[i..]).oneLine
    decreases |stream| - i
  {
    if i < |stream| {
      if stream[i] == MARKER_START {
        var k :| i < k < |stream| && ClosesAt(stream, i, k);
        var t := WholeBracket(stream, i, k, s);
        WellBracketedFrom(stream, k + 1, t);
      } else {
        assert stream[i..][0] == stream[i] && stream[i..][1..] == stream[i + 1..];
        WellBracketedFrom(stream, i + 1, ScanByte(s, stream[i]));
      }
    }
  }

  /** On a well-bracketed stream the scanner is never surprised and ends outside brackets. */
  lemma {:induction false} WellBracketedScans(stream: Bytes)
    requires WellBracketed(stream)
    ensures ScanAll(START, stream).ok && ScanAll(START, stream).pending == []
    ensures MarkersOnOneLine(stream) ==> ScanAll(START, stream).oneLine
  {
    assert stream[0..] == stream;
    WellBracketedFrom(stream, 0, START);
  }
}
