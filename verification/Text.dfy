/** Unicode characters as the program looks at them: blanks, controls, and their UTF-8 size. */
module Text {
  import opened Basics

  predicate Whitespace(c: char) {
    || '\U{9}' <= c <= '\U{D}' || '\U{2000}' <= c <= '\U{200A}'
    || c in {' ', '\U{85}', '\U{A0}', '\U{1680}', '\U{2028}', '\U{2029}', '\U{202F}', '\U{205F}', '\U{3000}'}
  }

  predicate Control(c: char) {
    c <= '\U{1F}' || '\U{7F}' <= c <= '\U{9F}'
  }

  /** The same by their codes. */
  lemma Codes(c: char)
    ensures var n := c as int;
            Whitespace(c) <==> 9 <= n <= 13 || 8192 <= n <= 8202
                               || n in {32, 133, 160, 5760, 8232, 8233, 8239, 8287, 12288}
    ensures Control(c) <==> c as int <= 31 || 127 <= c as int <= 159
  {
    var n := c as int;
    if n in {32, 133, 160, 5760, 8232, 8233, 8239, 8287, 12288} { assert n as char == c; }
  }

  predicate Blank(s: string) {
    forall i | 0 <= i < |s| :: Whitespace(s[i])
  }

  function TrimStart(s: string): string {
    if s != "" && Whitespace(s[0]) then TrimStart(s[1..]) else s
  }

  function TrimEnd(s: string): string {
    if s != "" && Whitespace(s[|s| - 1]) then TrimEnd(s[..|s| - 1]) else s
  }

  function Trim(s: string): string {
    TrimEnd(TrimStart(s))
  }

  /** No blank at either end. */
  predicate Tight(s: string) {
    s != "" ==> !Whitespace(s[0]) && !Whitespace(s[|s| - 1])
  }

  lemma {:induction false} TrimStartDrops(s: string) returns (k: nat)
    ensures k <= |s| && TrimStart(s) == s[k..] && Blank(s[..k]) && (k < |s| ==> !Whitespace(s[k]))
    decreases |s|
  {
    if s != "" && Whitespace(s[0]) {
      var j := TrimStartDrops(s[1..]);
      k := j + 1;
      assert s[1..][j..] == s[k..] && s[..k] == [s[0]] + s[1..][..j];
    } else {
      k := 0;
    }
  }

  lemma {:induction false} TrimEndDrops(s: string) returns (k: nat)
    ensures k <= |s| && TrimEnd(s) == s[..k] && Blank(s[k..]) && (k > 0 ==> !Whitespace(s[k - 1]))
    decreases |s|
  {
    if s != "" && Whitespace(s[|s| - 1]) {
      k := TrimEndDrops(s[..|s| - 1]);
      assert s[k..] == s[..|s| - 1][k..] + [s[|s| - 1]];
    } else {
      k := |s|;
    }
  }

  /** Trimming drops blanks at both ends and nothing else, until none is left there. */
  lemma TrimDrops(s: string) returns (i: nat, j: nat)
    ensures i <= j <= |s| && Trim(s) == s[i..j] && Blank(s[..i]) && Blank(s[j..]) && Tight(Trim(s))
  {
    i := TrimStartDrops(s);
    var k := TrimEndDrops(s[i..]);
    j := i + k;
    assert s[i..][..k] == s[i..j] && s[i..][k..] == s[j..];
    if k > 0 { assert s[i..j][0] == s[i] && s[i..j][k - 1] == s[i..][k - 1]; }
  }

  lemma TrimmedEmptyIff(s: string)
    ensures Trim(s) == "" <==> Blank(s)
  {
    var i, j := TrimDrops(s);
    if Trim(s) == "" {
      assert i == j && s == s[..i] + s[j..];
    } else {
      assert Trim(s)[0] == s[i];
    }
  }

  lemma TightIsTrimmed(s: string)
    requires Tight(s)
    ensures Trim(s) == s
  {
  }

  // ---------------------------------------------------------------- UTF-8

  /** A character in UTF-8. */
  function Encode(c: nat): seq<Byte>
    requires c < 0x11_0000
  {
    if c < 0x80 then [c]
    else if c < 0x800 then [0xc0 + c / 0x40, 0x80 + c % 0x40]
    else if c < 0x1_0000 then [0xe0 + c / 0x1000, 0x80 + c / 0x40 % 0x40, 0x80 + c % 0x40]
    else [0xf0 + c / 0x4_0000, 0x80 + c / 0x1000 % 0x40, 0x80 + c / 0x40 % 0x40, 0x80 + c % 0x40]
  }

  predicate Characters(text: seq<nat>) {
    forall i {:trigger text[i]} | 0 <= i < |text| :: text[i] < 0x11_0000
  }

  function EncodeAll(text: seq<nat>): seq<Byte>
    requires Characters(text)
  {
    if text == [] then [] else Encode(text[0]) + EncodeAll(text[1..])
  }

  /** The character that a sequence encodes, as section 3 of RFC 3629 lays out its bits. */
  function Decode(bytes: seq<int>): int {
    match |bytes|
    case 1 => bytes[0]
    case 2 => (bytes[0] - 192) * 64 + bytes[1] - 128
    case 3 => (bytes[0] - 224) * 4096 + (bytes[1] - 128) * 64 + bytes[2] - 128
    case 4 => (bytes[0] - 240) * 262144 + (bytes[1] - 128) * 4096 + (bytes[2] - 128) * 64 + bytes[3] - 128
    case _ => -1
  }

  /** The first byte tells how many there are, and the others that they are not first. */
  predicate WellFormed(bytes: seq<Byte>) {
    && 1 <= |bytes| <= 4
    && (match |bytes|
        case 1 => bytes[0] < 128
        case 2 => 192 <= bytes[0] < 224
        case 3 => 224 <= bytes[0] < 240
        case _ => 240 <= bytes[0] < 248)
    && forall i | 1 <= i < |bytes| :: 128 <= bytes[i] < 192
  }

  /** Digits to the base of 64. */
  lemma Digits(c: nat)
    ensures c == c / 64 * 64 + c % 64
    ensures c / 64 == c / 4096 * 64 + c / 64 % 64
    ensures c / 4096 == c / 262144 * 64 + c / 4096 % 64
  {
  }

  lemma DecodeUndoesEncode(c: nat)
    requires c < 0x11_0000
    ensures WellFormed(Encode(c)) && Decode(Encode(c)) == c
    ensures |Encode(c)| == if c < 128 then 1 else if c < 2048 then 2 else if c < 65536 then 3 else 4
  {
    Digits(c);
  }

  // ---------------------------------------------------------------- sizes

  function CharSize(c: char): nat {
    var n := c as int;
    if n < 0x80 then 1 else if n < 0x800 then 2 else if n < 0x1_0000 then 3 else 4
  }

  /** Number of bytes in UTF-8. */
  function Size(s: string): nat {
    if s == "" then 0 else CharSize(s[0]) + Size(s[1..])
  }

  /** It is the number of bytes that encode it. */
  lemma SizeIsEncoded(c: char)
    ensures CharSize(c) == |Encode(c as int)|
  {
  }

  lemma {:induction false} SizeBounds(s: string)
    ensures |s| <= Size(s) <= 4 * |s|
  {
    if s != "" { SizeBounds(s[1..]); }
  }

  lemma {:induction false} SizeAdds(s: string, t: string)
    ensures Size(s + t) == Size(s) + Size(t)
  {
    if s == "" {
      assert s + t == t;
    } else {
      assert (s + t)[1..] == s[1..] + t;
      SizeAdds(s[1..], t);
    }
  }

  lemma PartIsSmaller(s: string, i: nat, j: nat)
    requires i <= j <= |s|
    ensures Size(s[i..j]) <= Size(s)
  {
    assert s == s[..i] + s[i..] && s[i..] == s[i..j] + s[j..];
    SizeAdds(s[..i], s[i..]);
    SizeAdds(s[i..j], s[j..]);
  }

  // ---------------------------------------------------------------- one line

  /** Control characters become spaces. */
  function Flat(s: string): (r: string)
    ensures |r| == |s| && forall i | 0 <= i < |s| :: r[i] == if Control(s[i]) then ' ' else s[i]
  {
    if s == "" then "" else [if Control(s[0]) then ' ' else s[0]] + Flat(s[1..])
  }

  predicate Plainly(s: string) {
    forall i | 0 <= i < |s| :: !Control(s[i])
  }

  lemma FlatSameIff(s: string)
    ensures Flat(s) == s <==> Plainly(s)
  {
    if Flat(s) == s {
      forall i | 0 <= i < |s| ensures !Control(s[i]) { assert Flat(s)[i] == s[i]; }
    }
  }

  lemma FlatIsPlain(s: string)
    ensures Plainly(Flat(s))
  {
  }

  lemma FlatAdds(s: string, t: string)
    ensures Flat(s + t) == Flat(s) + Flat(t)
  {
  }

  lemma {:induction false} FlatIsSmaller(s: string)
    ensures Size(Flat(s)) <= Size(s)
  {
    if s != "" {
      assert Flat(s)[1..] == Flat(s[1..]);
      FlatIsSmaller(s[1..]);
    }
  }
}
