/** What a scalar value comes to on the wire (sections 3 and 4 of RFC 3629 for UTF-8, section 2 of
    RFC 2781 for UTF-16): the code units themselves, a decoder that undoes them, and the lengths
    the rest of the model counts with. */
module Encodings {
  import opened Text
  import D = Documents

  /** The code units of one scalar value. */
  function UnitsOf(enc: Encoding, c: char): (s: seq<int>)
    ensures s != []
  {
    var n: nat := c as int;
    match enc
    case Utf8 =>
      if n < 0x80 then [n]
      else if n < 0x800 then [0xC0 + n / 0x40, 0x80 + n % 0x40]
      else if n < 0x1_0000 then [0xE0 + n / 0x1000, 0x80 + n / 0x40 % 0x40, 0x80 + n % 0x40]
      else [0xF0 + n / 0x4_0000, 0x80 + n / 0x1000 % 0x40, 0x80 + n / 0x40 % 0x40, 0x80 + n % 0x40]
    case Utf16 =>
      if n < 0x1_0000 then [n] else [0xD800 + (n - 0x1_0000) / 0x400, 0xDC00 + (n - 0x1_0000) % 0x400]
  }

  function CodeUnits(enc: Encoding, t: string): seq<int> {
    if t == "" then [] else UnitsOf(enc, t[0]) + CodeUnits(enc, t[1..])
  }

  // ---------------------------------------------------------------------------------------
  // Decoding.

  /** How many units the scalar value takes that begins with this one. */
  function LeadLength(enc: Encoding, u: int): (n: nat)
    ensures 1 <= n
  {
    match enc
    case Utf8 => if u < 0x80 then 1 else if u < 0xE0 then 2 else if u < 0xF0 then 3 else 4
    case Utf16 => if 0xD800 <= u < 0xDC00 then 2 else 1
  }

  function ScalarOf(enc: Encoding, s: seq<int>): int {
    match enc
    case Utf8 =>
      if |s| == 2 then (s[0] - 0xC0) * 0x40 + (s[1] - 0x80)
      else if |s| == 3 then (s[0] - 0xE0) * 0x1000 + (s[1] - 0x80) * 0x40 + (s[2] - 0x80)
      else if |s| == 4 then
        (s[0] - 0xF0) * 0x4_0000 + (s[1] - 0x80) * 0x1000 + (s[2] - 0x80) * 0x40 + (s[3] - 0x80)
      else if |s| == 1 then s[0] else -1
    case Utf16 =>
      if |s| == 2 then 0x1_0000 + (s[0] - 0xD800) * 0x400 + (s[1] - 0xDC00)
      else if |s| == 1 then s[0] else -1
  }

  /** The scalar values a sequence of code units spells, up to a unit cut off from its rest. */
  function Scalars(enc: Encoding, s: seq<int>): seq<int>
    decreases |s|
  {
    if s == [] || LeadLength(enc, s[0]) > |s| then []
    else
      var n := LeadLength(enc, s[0]);
      [ScalarOf(enc, s[..n])] + Scalars(enc, s[n..])
  }

  function Values(t: string): seq<int> {
    seq(|t|, i requires 0 <= i < |t| => t[i] as int)
  }

  /** A number in base 64. */
  lemma {:induction false} Base64(n: nat)
    ensures n == n / 0x40 * 0x40 + n % 0x40
    ensures n / 0x40 == n / 0x1000 * 0x40 + n / 0x40 % 0x40
    ensures n / 0x1000 == n / 0x4_0000 * 0x40 + n / 0x1000 % 0x40
  {
  }

  lemma {:induction false} Utf8Decodes(c: char)
    ensures var s := UnitsOf(Utf8, c);
      |s| == Utf8Len(c) && LeadLength(Utf8, s[0]) == |s| && ScalarOf(Utf8, s) == c as int
  {
    Base64(c as int);
  }

  lemma {:induction false} Utf16Decodes(c: char)
    ensures var s := UnitsOf(Utf16, c);
      |s| == Utf16Len(c) && LeadLength(Utf16, s[0]) == |s| && ScalarOf(Utf16, s) == c as int
  {
  }

  lemma {:induction false} UnitDecodes(enc: Encoding, c: char)
    ensures var s := UnitsOf(enc, c);
      |s| == Units(enc, c) && LeadLength(enc, s[0]) == |s| && ScalarOf(enc, s) == c as int
  {
    match enc
    case Utf8 => Utf8Decodes(c);
    case Utf16 => Utf16Decodes(c);
  }

  /** Encoding a text and decoding it gives its scalar values back, in both encodings. */
  lemma {:induction false} DecodesBack(enc: Encoding, t: string)
    ensures Scalars(enc, CodeUnits(enc, t)) == Values(t)
  {
    if t != "" {
      var s, first, rest := CodeUnits(enc, t), UnitsOf(enc, t[0]), CodeUnits(enc, t[1..]);
      UnitDecodes(enc, t[0]);
      assert s[0] == first[0] && s[..|first|] == first && s[|first|..] == rest;
      DecodesBack(enc, t[1..]);
      assert Values(t) == [t[0] as int] + Values(t[1..]);
    }
  }

  /** A width is a count of code units. */
  lemma {:induction false} WidthCounts(enc: Encoding, t: string)
    ensures |CodeUnits(enc, t)| == Width(enc, t, |t|)
  {
    if t != "" {
      assert |UnitsOf(enc, t[0])| == Width(enc, t, 1) by {
        UnitDecodes(enc, t[0]);
        assert Width(enc, t, 1) == Units(enc, t[0]);
      }
      assert Width(enc, t, |t|) == Width(enc, t, 1) + Width(enc, t[1..], |t| - 1) by {
        WidthOfSlice(enc, t, 1, |t|);
        assert t[1..|t|] == t[1..];
      }
      WidthCounts(enc, t[1..]);
    }
  }

  lemma {:induction false} SliceCounts(enc: Encoding, t: string, i: nat, j: nat)
    requires i <= j <= |t|
    ensures |CodeUnits(enc, t[i..j])| == Width(enc, t, j) - Width(enc, t, i)
  {
    WidthCounts(enc, t[i..j]);
    WidthOfSlice(enc, t, i, j);
  }

  /** Byte offsets count the bytes before a place. A wire position counts the line feeds before it
      and the code units between it and the start of its line. */
  lemma {:induction false} PlacesCountUnits(enc: Encoding, t: string, k: nat)
    requires k <= |t|
    ensures Offset(t, k) == |CodeUnits(Utf8, t[..k])|
    ensures var p := D.PositionOf(enc, t, k);
      p.line == |(set i | 0 <= i < k && t[i] == '\n')| && p.character == |CodeUnits(enc, t[LineBegin(t, k)..k])|
  {
    SliceCounts(Utf8, t, 0, k);
    assert t[0..k] == t[..k];
    SliceCounts(enc, t, LineBegin(t, k), k);
    FeedsCount(t, k);
  }

  lemma {:induction false} FeedsCount(t: string, k: nat)
    requires k <= |t|
    ensures Newlines(t, k) == |(set i | 0 <= i < k && t[i] == '\n')|
  {
    if k > 0 {
      FeedsCount(t, k - 1);
      var before, now := set i | 0 <= i < k - 1 && t[i] == '\n', set i | 0 <= i < k && t[i] == '\n';
      assert now == if t[k - 1] == '\n' then before + {k - 1} else before;
    }
  }
}
