/** Unicode white space in UTF-8, and trimming it. */
module WhiteSpace {
  import opened Common

  /** Is this one of the three-byte white-space characters? */
  predicate IsWide(s: Bytes)
    requires |s| == 3
  {
    || s == [0xE1, 0x9A, 0x80] || s == [0xE2, 0x81, 0x9F] || s == [0xE3, 0x80, 0x80]
    || (s[0] == 0xE2 && s[1] == 0x80 && (0x80 <= s[2] <= 0x8A || s[2] == 0xA8 || s[2] == 0xA9 || s[2] == 0xAF))
  }

  predicate IsNarrow(b: byte) {
    9 <= b <= 13 || b == 32
  }

  /** The length of the white-space character the bytes begin with; 0 if they begin with none. */
  function WhiteWidth(s: Bytes): (n: nat)
    ensures n <= |s|
  {
    if s == [] then 0
    else if IsNarrow(s[0]) then 1
    else if |s| >= 2 && s[0] == 0xC2 && (s[1] == 0x85 || s[1] == 0xA0) then 2
    else if |s| >= 3 && IsWide(s[..3]) then 3
    else 0
  }

  /** The length of the white-space character the bytes end with; 0 if they end with none. */
  function WhiteTail(s: Bytes): (n: nat)
    ensures n <= |s|
  {
    var k := |s|;
    if s == [] then 0
    else if IsNarrow(s[k - 1]) then 1
    else if k >= 2 && s[k - 2] == 0xC2 && (s[k - 1] == 0x85 || s[k - 1] == 0xA0) then 2
    else if k >= 3 && IsWide(s[k - 3..]) then 3
    else 0
  }

  function TrimStart(s: Bytes): Bytes
    decreases |s|
  {
    var w := WhiteWidth(s);
    if w == 0 then s else TrimStart(s[w..])
  }

  function TrimEnd(s: Bytes): Bytes
    decreases |s|
  {
    var w := WhiteTail(s);
    if w == 0 then s else TrimEnd(s[..|s| - w])
  }

  function Trim(s: Bytes): Bytes {
    TrimEnd(TrimStart(s))
  }

  /** Nothing is left of the text when it is trimmed. */
  predicate Blank(s: Bytes) {
    Trim(s) == []
  }
}
