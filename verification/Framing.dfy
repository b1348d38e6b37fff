/** Message framing (rs/src/jsonrpc.rs, `read_message` and `write_message`; the Header Part of
    the Base Protocol, Language Server Protocol 3.17).

    Bodies are opaque bytes: what they parse to is decided after the reader has moved on. */
module Framing {
  import opened Wrappers

  type Byte = x: int | 0 <= x < 256

  const LF: Byte := 10
  const CR: Byte := 13
  const SPACE: Byte := 32
  const PLUS: Byte := 43
  const COLON: Byte := 58
  const ZERO: Byte := 48

  const U64_LIMIT := 0x1_0000_0000_0000_0000

  /** ASCII text as bytes. */
  function Ascii(s: string): seq<Byte>
    requires forall i :: 0 <= i < |s| ==> s[i] as int < 128
  {
    seq(|s|, i requires 0 <= i < |s| => s[i] as int)
  }

  const CONTENT_LENGTH := Ascii("content-length")

  // ---------------------------------------------------------------------------------------
  // Header lines.

  predicate IsLineEnd(b: Byte) {
    b == CR || b == LF
  }

  /** ASCII white space, as a header is trimmed. */
  predicate IsSpace(b: Byte) {
    b == SPACE || 9 <= b <= 13
  }

  function TrimLineEnd(s: seq<Byte>): (r: seq<Byte>)
    ensures r <= s
    ensures r != [] ==> !IsLineEnd(r[|r| - 1])
  {
    if s != [] && IsLineEnd(s[|s| - 1]) then TrimLineEnd(s[..|s| - 1]) else s
  }

  function TrimStart(s: seq<Byte>): seq<Byte> {
    if s != [] && IsSpace(s[0]) then TrimStart(s[1..]) else s
  }

  function TrimEnd(s: seq<Byte>): seq<Byte> {
    if s != [] && IsSpace(s[|s| - 1]) then TrimEnd(s[..|s| - 1]) else s
  }

  function Trim(s: seq<Byte>): seq<Byte> {
    TrimEnd(TrimStart(s))
  }

  function Lower(b: Byte): Byte {
    if 65 <= b <= 90 then b + 32 else b
  }

  predicate EqualsIgnoringCase(a: seq<Byte>, b: seq<Byte>) {
    |a| == |b| && forall i :: 0 <= i < |a| ==> Lower(a[i]) == Lower(b[i])
  }

  predicate AllDigits(s: seq<Byte>) {
    forall i :: 0 <= i < |s| ==> ZERO <= s[i] < ZERO + 10
  }

  function DigitsValue(s: seq<Byte>): nat
    requires AllDigits(s)
  {
    if s == [] then 0 else 10 * DigitsValue(s[..|s| - 1]) + (s[|s| - 1] - ZERO)
  }

  /** `str::parse::<u64>`: an optional plus sign and at least one digit, within 64 bits. */
  function ParseU64(s: seq<Byte>): Option<nat> {
    var digits := if s != [] && s[0] == PLUS then s[1..] else s;
    if digits != [] && AllDigits(digits) && DigitsValue(digits) < U64_LIMIT then Some(DigitsValue(digits)) else None
  }

  /** What the headers read so far say of the length: the last such header counts. */
  datatype Length = Missing | Bad | Given(n: nat)

  function ColonAt(s: seq<Byte>): (i: nat)
    ensures i <= |s|
    ensures i < |s| ==> s[i] == COLON
    ensures COLON !in s[..i]
  {
    if s == [] || s[0] == COLON then 0
    else
      var i := 1 + ColonAt(s[1..]);
      assert s[..i] == [s[0]] + s[1..][..i - 1];
      i
  }

  /** The length after one more header line, given without its line end. */
  function AfterHeader(length: Length, text: seq<Byte>): Length {
    var i := ColonAt(text);
    if i == |text| || !EqualsIgnoringCase(Trim(text[..i]), CONTENT_LENGTH) then length
    else match ParseU64(Trim(text[i + 1..])) case None => Bad case Some(n) => Given(n)
  }

  // ---------------------------------------------------------------------------------------
  // Reading.

  /** What a read yields: the clean end of the stream, an end inside a message, a header block
      that names no length, or a body; and the input left unread. */
  datatype Read = End | Cut | NoLength(rest: seq<Byte>) | Body(body: seq<Byte>, rest: seq<Byte>)

  /** The length of the first line, its line feed included. */
  function LineLength(s: seq<Byte>): (n: nat)
    ensures n <= |s| && (s != [] ==> n > 0)
    ensures LF !in s[..if n == 0 then 0 else n - 1]
    ensures n < |s| ==> n > 0 && s[n - 1] == LF
  {
    if s == [] then 0 else if s[0] == LF then 1
    else
      var n := 1 + LineLength(s[1..]);
      assert n - 1 >= 1 ==> s[..n - 1] == [s[0]] + s[1..][..n - 2];
      n
  }

  function ReadFrom(s: seq<Byte>, started: bool, length: Length): Read
    decreases |s|
  {
    if s == [] then (if started then Cut else End)
    else
      var n := LineLength(s);
      var text, rest := TrimLineEnd(s[..n]), s[n..];
      if text != [] then ReadFrom(rest, true, AfterHeader(length, text))
      else if !started then ReadFrom(rest, false, length)
      else if !length.Given? then NoLength(rest)
      else if length.n > |rest| then Cut
      else Body(rest[..length.n], rest[length.n..])
  }

  /** One framed message from the head of the input. */
  function ReadOne(s: seq<Byte>): Read {
    ReadFrom(s, false, Missing)
  }

  /** A buffered reader over a stream: what is left of it. */
  class Reader {
    var input: seq<Byte>

    constructor (input: seq<Byte>)
      ensures this.input == input
    {
      this.input := input;
    }

    /** Take the next line, its line feed included; nothing at the end of the stream. */
    method ReadLine() returns (line: seq<Byte>)
      modifies this
      ensures line == old(input)[..LineLength(old(input))] && input == old(input)[LineLength(old(input))..]
    {
      var n := 0;
      while n < |input| && (n == 0 || input[n - 1] != LF)
        invariant n <= |input| && (n > 0 ==> LF !in input[..n - 1])
        invariant n + (if n > 0 && input[n - 1] == LF then 0 else LineLength(input[n..])) == LineLength(input)
      {
        assert n == 0 ==> input[n..] == input;
        assert input[n..][1..] == input[n + 1..];
        n := n + 1;
      }
      assert n == |input| ==> input[n..] == [];
      line, input := input[..n], input[n..];
    }

    /** `read_message`, up to the parse of the body. */
    method ReadMessage() returns (r: Read)
      modifies this
      ensures r == ReadOne(old(input))
      ensures r.NoLength? || r.Body? ==> input == r.rest
    {
      var length := Missing;
      var started := false;
      while true
        invariant ReadFrom(input, started, length) == ReadOne(old(input))
        decreases |input|
      {
        ghost var was := input;
        var line := ReadLine();
        if line == [] {
          return if started then Cut else End;
        }
        var text := TrimLineEnd(line);
        if text == [] {
          if started {
            break;
          }
          continue;
        }
        started := true;
        length := AfterHeader(length, text);
      }
      if !length.Given? {
        return NoLength(input);
      }
      if length.n > |input| {
        return Cut;
      }
      r := Body(input[..length.n], input[length.n..]);
      input := input[length.n..];
    }
  }

  // ---------------------------------------------------------------------------------------
  // Writing.

  function Decimal(n: nat): (s: seq<Byte>)
    ensures s != [] && AllDigits(s)
  {
    if n < 10 then [ZERO + n] else Decimal(n / 10) + [ZERO + n % 10]
  }

  /** `write_message`: the length header, a blank line and the body. */
  function Written(body: seq<Byte>): seq<Byte> {
    Ascii("Content-Length: ") + Decimal(|body|) + [CR, LF, CR, LF] + body
  }

  lemma {:induction false} DecimalValue(n: nat)
    ensures DigitsValue(Decimal(n)) == n
  {
    if n >= 10 {
      DecimalValue(n / 10);
      var s := Decimal(n);
      assert s[..|s| - 1] == Decimal(n / 10);
    }
  }

  // ---------------------------------------------------------------------------------------
  // What a header line says of the length, byte by byte.

  /** A line's bytes before its line feed. */
  type Line = seq<Byte>

  ghost predicate AllSpaces(s: seq<Byte>) {
    forall i :: 0 <= i < |s| ==> s[i] == 32 || 9 <= s[i] <= 13
  }

  /** The length header's name, each letter in either case. */
  ghost predicate IsName(s: seq<Byte>) {
    && |s| == 14
    && forall i :: 0 <= i < 14 ==> s[i] == "content-length"[i] as int || s[i] == "CONTENT-LENGTH"[i] as int
  }

  ghost predicate IsLabel(s: seq<Byte>) {
    exists before, name, after ::
      s == before + name + after && AllSpaces(before) && IsName(name) && AllSpaces(after)
  }

  /** A text of the number `n`: white space around an optional plus sign and the digits, leading
      zeros among them. */
  ghost predicate IsNumeral(s: seq<Byte>, n: nat) {
    exists pre, plus, zeros, post ::
      && s == pre + (plus + (zeros + Decimal(n))) + post
      && AllSpaces(pre) && (plus == [] || plus == [43]) && AllZeros(zeros) && AllSpaces(post)
  }

  ghost predicate AllZeros(s: seq<Byte>) {
    forall i :: 0 <= i < |s| ==> s[i] == 48
  }

  ghost predicate IsLengthHeader(l: Line) {
    exists key, value :: l == key + [COLON] + value && IsLabel(key)
  }

  /** The line is a length header of the number `n`. */
  ghost predicate Names(l: Line, n: nat) {
    exists key, value :: l == key + [COLON] + value && IsLabel(key) && IsNumeral(value, n)
  }

  lemma {:induction false} TrimStartParts(s: seq<Byte>) returns (pre: seq<Byte>)
    ensures s == pre + TrimStart(s) && AllSpaces(pre)
    ensures TrimStart(s) != [] ==> !IsSpace(TrimStart(s)[0])
  {
    pre := [];
    if s != [] && IsSpace(s[0]) {
      pre := TrimStartParts(s[1..]);
      pre := [s[0]] + pre;
    }
  }

  lemma {:induction false} TrimEndParts(s: seq<Byte>) returns (post: seq<Byte>)
    ensures s == TrimEnd(s) + post && AllSpaces(post)
  {
    post := [];
    if s != [] && IsSpace(s[|s| - 1]) {
      post := TrimEndParts(s[..|s| - 1]);
      post := post + [s[|s| - 1]];
    }
  }

  lemma {:induction false} TrimParts(s: seq<Byte>) returns (pre: seq<Byte>, post: seq<Byte>)
    ensures s == pre + Trim(s) + post && AllSpaces(pre) && AllSpaces(post)
  {
    pre := TrimStartParts(s);
    post := TrimEndParts(TrimStart(s));
  }

  lemma {:induction false} TrimStartSpaces(pre: seq<Byte>, s: seq<Byte>)
    requires AllSpaces(pre)
    requires s != [] && !IsSpace(s[0])
    ensures TrimStart(pre + s) == s
  {
    if pre == [] {
      assert pre + s == s;
    } else {
      assert (pre + s)[1..] == pre[1..] + s;
      TrimStartSpaces(pre[1..], s);
    }
  }

  lemma {:induction false} TrimEndSpaces(s: seq<Byte>, post: seq<Byte>)
    requires AllSpaces(post)
    ensures TrimEnd(s + post) == TrimEnd(s)
  {
    if post == [] {
      assert s + post == s;
    } else {
      var p := post[..|post| - 1];
      assert (s + post)[..|s + post| - 1] == s + p;
      TrimEndSpaces(s, p);
    }
  }

  lemma {:induction false} TrimSpaces(pre: seq<Byte>, s: seq<Byte>, post: seq<Byte>)
    requires AllSpaces(pre) && AllSpaces(post)
    requires s != [] && !IsSpace(s[0]) && !IsSpace(s[|s| - 1])
    ensures Trim(pre + s + post) == s
  {
    assert pre + s + post == pre + (s + post);
    TrimStartSpaces(pre, s + post);
    TrimEndSpaces(s, post);
  }

  /** White space after a text does not matter to it, trimmed. */
  lemma {:induction false} TrimTail(s: seq<Byte>, post: seq<Byte>)
    requires AllSpaces(post)
    ensures Trim(s + post) == Trim(s)
  {
    var pre := TrimStartParts(s);
    var core := TrimStart(s);
    assert s + post == pre + (core + post);
    if core == [] {
      assert [] + (pre + post) == pre + post == s + post;
      TrimEndSpaces([], pre + post);
      var more := TrimStartParts(s + post);
      AllSpacesTrim(pre + post, more);
    } else {
      TrimStartSpaces(pre, core + post);
      TrimEndSpaces(core, post);
    }
  }

  lemma {:induction false} AllSpacesTrim(s: seq<Byte>, pre: seq<Byte>)
    requires AllSpaces(s) && s == pre + TrimStart(s)
    requires TrimStart(s) != [] ==> !IsSpace(TrimStart(s)[0])
    ensures TrimStart(s) == []
  {
    assert s[|pre|..] == TrimStart(s);
  }

  lemma {:induction false} LabelExactly(s: seq<Byte>)
    ensures IsLabel(s) <==> EqualsIgnoringCase(Trim(s), CONTENT_LENGTH)
    ensures IsLabel(s) ==> COLON !in s
  {
    if IsLabel(s) {
      var before, name, after :|
        s == before + name + after && AllSpaces(before) && IsName(name) && AllSpaces(after);
      NameExactly(name);
      TrimSpaces(before, name, after);
    }
    var pre, post := TrimParts(s);
    NameExactly(Trim(s));
  }

  lemma {:induction false} NameExactly(s: seq<Byte>)
    ensures IsName(s) <==> EqualsIgnoringCase(s, CONTENT_LENGTH)
    ensures IsName(s) ==> COLON !in s && !IsSpace(s[0]) && !IsSpace(s[13])
  {
    assert forall i :: 0 <= i < 14 ==> CONTENT_LENGTH[i] == "content-length"[i] as int;
    assert forall i :: 0 <= i < 14 ==> Lower(CONTENT_LENGTH[i]) == CONTENT_LENGTH[i];
    assert forall i :: 0 <= i < 14 && "content-length"[i] as int != 45 ==>
      "CONTENT-LENGTH"[i] as int == "content-length"[i] as int - 32;
  }

  /** A run of digits is its value's decimal text, after any zeros; and the other way round. */
  lemma {:induction false} DigitsForm(s: seq<Byte>) returns (zeros: seq<Byte>)
    requires s != [] && AllDigits(s)
    ensures AllZeros(zeros) && s == zeros + Decimal(DigitsValue(s))
  {
    var front, d := s[..|s| - 1], s[|s| - 1];
    assert s == front + [d];
    if front == [] {
      zeros := [];
    } else {
      var before := DigitsForm(front);
      zeros := FormStep(before, DigitsValue(front), d);
    }
  }

  lemma {:induction false} FormStep(before: seq<Byte>, v: nat, d: Byte) returns (zeros: seq<Byte>)
    requires AllZeros(before) && ZERO <= d < ZERO + 10
    ensures AllZeros(zeros) && before + Decimal(v) + [d] == zeros + Decimal(10 * v + (d - ZERO))
  {
    if v == 0 {
      assert Decimal(0) == [48] && Decimal(d - ZERO) == [d];
      zeros := before + Decimal(0);
    } else {
      zeros := before;
      DecimalStep(v, d - ZERO);
    }
  }

  lemma {:induction false} DecimalStep(v: nat, d: nat)
    requires v > 0 && d < 10
    ensures Decimal(10 * v + d) == Decimal(v) + [ZERO + d]
  {
    assert (10 * v + d) / 10 == v && (10 * v + d) % 10 == d;
  }

  lemma {:induction false} ZerosDrop(zeros: seq<Byte>, s: seq<Byte>)
    requires AllZeros(zeros) && AllDigits(s)
    ensures AllDigits(zeros + s) && DigitsValue(zeros + s) == DigitsValue(s)
  {
    if s != [] {
      assert (zeros + s)[..|zeros + s| - 1] == zeros + s[..|s| - 1];
      ZerosDrop(zeros, s[..|s| - 1]);
    } else if zeros != [] {
      assert zeros + s == zeros;
      assert zeros[..|zeros| - 1] + s == zeros[..|zeros| - 1];
      ZerosDrop(zeros[..|zeros| - 1], s);
    }
  }

  /** What parses, and as which number: exactly the numerals below 2^64. */
  lemma {:induction false} ParsesExactly(s: seq<Byte>, n: nat)
    ensures ParseU64(Trim(s)) == Some(n) <==> IsNumeral(s, n) && n < 0x1_0000_0000_0000_0000
  {
    if IsNumeral(s, n) {
      var pre, plus, zeros, post :|
        && s == pre + (plus + (zeros + Decimal(n))) + post
        && AllSpaces(pre) && (plus == [] || plus == [43]) && AllZeros(zeros) && AllSpaces(post);
      NumeralParses(plus, zeros, n);
      TrimSpaces(pre, plus + (zeros + Decimal(n)), post);
    }
    if ParseU64(Trim(s)) == Some(n) {
      var pre, post := TrimParts(s);
      var plus, zeros := ParsedForm(Trim(s), n);
      assert s == pre + (plus + (zeros + Decimal(n))) + post;
    }
  }

  lemma {:induction false} NumeralParses(plus: seq<Byte>, zeros: seq<Byte>, n: nat)
    requires (plus == [] || plus == [43]) && AllZeros(zeros)
    ensures var s := plus + (zeros + Decimal(n));
      && s != [] && !IsSpace(s[0]) && !IsSpace(s[|s| - 1])
      && ParseU64(s) == if n < 0x1_0000_0000_0000_0000 then Some(n) else None
  {
    var digits := zeros + Decimal(n);
    DecimalValue(n);
    ZerosDrop(zeros, Decimal(n));
    SignedParses(plus, digits);
  }

  lemma {:induction false} SignedParses(plus: seq<Byte>, digits: seq<Byte>)
    requires (plus == [] || plus == [43]) && digits != [] && AllDigits(digits)
    ensures var s := plus + digits;
      && s != [] && !IsSpace(s[0]) && !IsSpace(s[|s| - 1])
      && ParseU64(s) == if DigitsValue(digits) < U64_LIMIT then Some(DigitsValue(digits)) else None
  {
    var s := plus + digits;
    assert digits[0] >= ZERO && s[|s| - 1] == digits[|digits| - 1] >= ZERO;
    if plus == [] {
      assert s == digits;
    } else {
      assert s[0] == 43 && s[1..] == digits;
    }
  }

  lemma {:induction false} ParsedForm(s: seq<Byte>, n: nat) returns (plus: seq<Byte>, zeros: seq<Byte>)
    requires ParseU64(s) == Some(n)
    ensures s == plus + (zeros + Decimal(n)) && (plus == [] || plus == [43]) && AllZeros(zeros)
  {
    plus := if s[0] == PLUS then [43] else [];
    var digits := s[|plus|..];
    assert s == plus + digits;
    zeros := DigitsForm(digits);
  }

  lemma {:induction false} TrimLineParts(s: seq<Byte>) returns (ends: seq<Byte>)
    ensures s == TrimLineEnd(s) + ends && AllSpaces(ends) && COLON !in ends
  {
    ends := [];
    if s != [] && IsLineEnd(s[|s| - 1]) {
      ends := TrimLineParts(s[..|s| - 1]);
      ends := ends + [s[|s| - 1]];
    }
  }

  lemma {:induction false} ColonAfter(key: seq<Byte>, value: seq<Byte>)
    requires COLON !in key
    ensures ColonAt(key + [COLON] + value) == |key|
    ensures (key + [COLON] + value)[..|key|] == key && (key + [COLON] + value)[|key| + 1..] == value
  {
    if key == [] {
      assert (key + [COLON] + value)[0] == COLON;
    } else {
      ColonAfter(key[1..], value);
      assert (key + [COLON] + value)[1..] == key[1..] + [COLON] + value;
      assert (key + [COLON] + value)[0] == key[0];
    }
  }

  /** A line with a colon is a length header or not by what stands before its first colon, and
      names what stands after it. */
  lemma {:induction false} SplitsOnce(key: seq<Byte>, value: seq<Byte>, n: nat)
    requires COLON !in key
    ensures IsLengthHeader(key + [COLON] + value) <==> IsLabel(key)
    ensures Names(key + [COLON] + value, n) <==> IsLabel(key) && IsNumeral(value, n)
  {
    var l := key + [COLON] + value;
    ColonAfter(key, value);
    forall key', value' | l == key' + [COLON] + value' && IsLabel(key')
      ensures key' == key && value' == value
    {
      LabelExactly(key');
      ColonAfter(key', value');
    }
  }

  /** What a header line does to the length: nothing unless it is a length header, which gives the
      number it names below 2^64, and otherwise none. */
  lemma {:induction false} HeaderExactly(length: Length, l: Line)
    requires LF !in l
    ensures var after := AfterHeader(length, TrimLineEnd(l + [LF]));
      && (!IsLengthHeader(l) ==> after == length)
      && (IsLengthHeader(l) ==> after != Missing)
      && (IsLengthHeader(l) ==> forall n: nat ::
           (after == Given(n) <==> Names(l, n) && n < 0x1_0000_0000_0000_0000))
  {
    TrimLineOf(l);
    var text := TrimLineEnd(l);
    var ends := TrimLineParts(l);
    var i := ColonAt(text);
    if i == |text| {
      assert COLON !in text;
      assert COLON !in l;
    } else {
      var key, value := text[..i], text[i + 1..];
      assert l == key + [COLON] + (value + ends);
      assert AfterHeader(length, text) == if !EqualsIgnoringCase(Trim(key), CONTENT_LENGTH) then length
        else match ParseU64(Trim(value)) case None => Bad case Some(n) => Given(n);
      SaysExactly(key, value, ends);
    }
  }

  lemma {:induction false} SaysExactly(key: seq<Byte>, value: seq<Byte>, ends: seq<Byte>)
    requires COLON !in key && AllSpaces(ends)
    ensures var l := key + [COLON] + (value + ends);
      && (IsLengthHeader(l) <==> EqualsIgnoringCase(Trim(key), CONTENT_LENGTH))
      && (IsLengthHeader(l) ==> forall n: nat ::
           (ParseU64(Trim(value)) == Some(n) <==> Names(l, n) && n < 0x1_0000_0000_0000_0000))
  {
    LabelExactly(key);
    TrimTail(value, ends);
    SplitsOnce(key, value + ends, 0);
    forall n: nat
      ensures Names(key + [COLON] + (value + ends), n) <==> IsLabel(key) && IsNumeral(value + ends, n)
      ensures ParseU64(Trim(value)) == Some(n) <==> IsNumeral(value + ends, n) && n < 0x1_0000_0000_0000_0000
    {
      SplitsOnce(key, value + ends, n);
      ParsesExactly(value + ends, n);
    }
  }

  // ---------------------------------------------------------------------------------------
  // Frames in general: blank lines before the headers, any headers, either line end.

  datatype Frame = Frame(blanks: seq<Line>, headers: seq<Line>, end: Line, body: seq<Byte>)

  function Lines(ls: seq<Line>): seq<Byte> {
    if ls == [] then [] else ls[0] + [LF] + Lines(ls[1..])
  }

  predicate IsBlank(l: Line) {
    forall i :: 0 <= i < |l| ==> l[i] == CR
  }

  predicate IsHeader(l: Line) {
    LF !in l && !IsBlank(l)
  }

  function AfterHeaders(length: Length, ls: seq<Line>): Length
    decreases |ls|
  {
    if ls == [] then length else AfterHeaders(AfterHeader(length, TrimLineEnd(ls[0] + [LF])), ls[1..])
  }

  /** Line `k` is the last length header, and names `n`. */
  ghost predicate NamesLast(ls: seq<Line>, k: nat, n: nat) {
    k < |ls| && Names(ls[k], n) && forall j :: k < j < |ls| ==> !IsLengthHeader(ls[j])
  }

  /** The last length header among the headers names `n`. */
  ghost predicate LastNames(ls: seq<Line>, n: nat) {
    exists k: nat :: NamesLast(ls, k, n)
  }

  /** Blank lines, then headers, then a blank line. */
  ghost predicate IsBlock(f: Frame) {
    && (forall i :: 0 <= i < |f.blanks| ==> IsBlank(f.blanks[i]))
    && f.headers != [] && (forall i :: 0 <= i < |f.headers| ==> IsHeader(f.headers[i]))
    && IsBlank(f.end)
  }

  /** A well-formed frame: the last length header names its body's length. */
  ghost predicate IsFrame(f: Frame) {
    IsBlock(f) && LastNames(f.headers, |f.body|) && |f.body| < 0x1_0000_0000_0000_0000
  }

  /** Whatever headers come first, and whatever others follow, the last length header counts, in
      any spelling; and when it names no number below 2^64, or there is none, there is no length. */
  lemma {:induction false} LastLengthCounts(ls: seq<Line>, n: nat)
    requires forall i :: 0 <= i < |ls| ==> IsHeader(ls[i])
    ensures AfterHeaders(Missing, ls) == Given(n) <==> LastNames(ls, n) && n < 0x1_0000_0000_0000_0000
    decreases |ls|
  {
    if ls == [] {
      assert !LastNames(ls, n);
    } else {
      var front, last := ls[..|ls| - 1], ls[|ls| - 1];
      assert ls == front + [last];
      LastLengthCounts(front, n);
      HeadersJoin(Missing, front, last);
      assert IsHeader(last);
      HeaderExactly(AfterHeaders(Missing, front), last);
      LastNamesStep(front, last, n);
    }
  }

  lemma {:induction false} NamesLastStep(front: seq<Line>, last: Line, k: nat, n: nat)
    requires k <= |front|
    ensures NamesLast(front + [last], k, n) <==>
      if k < |front| then NamesLast(front, k, n) && !IsLengthHeader(last) else Names(last, n)
  {
    var ls := front + [last];
    assert forall j :: 0 <= j < |front| ==> ls[j] == front[j];
    assert ls[|front|] == last;
  }

  lemma {:induction false} LastNamesStep(front: seq<Line>, last: Line, n: nat)
    ensures LastNames(front + [last], n) <==> if IsLengthHeader(last) then Names(last, n) else LastNames(front, n)
  {
    assert Names(last, n) ==> IsLengthHeader(last);
    forall k: nat | k <= |front|
      ensures NamesLast(front + [last], k, n) <==>
        if k < |front| then NamesLast(front, k, n) && !IsLengthHeader(last) else Names(last, n)
    {
      NamesLastStep(front, last, k, n);
    }
    assert NamesLast(front + [last], |front|, n) <==> Names(last, n);
  }

  lemma {:induction false} HeadersJoin(length: Length, front: seq<Line>, last: Line)
    ensures AfterHeaders(length, front + [last]) ==
      AfterHeader(AfterHeaders(length, front), TrimLineEnd(last + [LF]))
    decreases |front|
  {
    var ls := front + [last];
    if front == [] {
      assert ls[1..] == [];
    } else {
      assert ls[1..] == front[1..] + [last];
      HeadersJoin(AfterHeader(length, TrimLineEnd(front[0] + [LF])), front[1..], last);
    }
  }

  function Render(f: Frame): seq<Byte> {
    Lines(f.blanks) + (Lines(f.headers) + (f.end + [LF] + f.body))
  }

  lemma {:induction false} LineLengthOf(l: Line, rest: seq<Byte>)
    requires LF !in l
    ensures LineLength(l + [LF] + rest) == |l| + 1
    ensures (l + [LF] + rest)[..|l| + 1] == l + [LF] && (l + [LF] + rest)[|l| + 1..] == rest
  {
    if l == [] {
      assert ([LF] + rest)[0] == LF && l + [LF] + rest == [LF] + rest;
    } else {
      LineLengthOf(l[1..], rest);
      assert (l + [LF] + rest)[1..] == l[1..] + [LF] + rest;
      assert (l + [LF] + rest)[0] == l[0];
    }
  }

  lemma {:induction false} BlankTrims(l: Line)
    requires IsBlank(l)
    ensures TrimLineEnd(l) == []
  {
    if l != [] { BlankTrims(l[..|l| - 1]); }
  }

  lemma {:induction false} TrimLineOf(l: Line)
    requires LF !in l
    ensures TrimLineEnd(l + [LF]) == TrimLineEnd(l)
    ensures TrimLineEnd(l) == [] <==> IsBlank(l)
  {
    assert (l + [LF])[..|l|] == l;
    if IsBlank(l) { BlankTrims(l); } else { TrimKeeps(l); }
  }

  lemma {:induction false} TrimKeeps(l: Line)
    requires LF !in l && !IsBlank(l)
    ensures TrimLineEnd(l) != []
  {
    if IsLineEnd(l[|l| - 1]) {
      var k := l[..|l| - 1];
      assert l[|l| - 1] in l;
      assert forall i :: 0 <= i < |k| ==> k[i] == l[i];
      TrimKeeps(k);
    }
  }

  lemma {:induction false} ReadBlanks(ls: seq<Line>, rest: seq<Byte>)
    requires forall i :: 0 <= i < |ls| ==> IsBlank(ls[i])
    ensures ReadFrom(Lines(ls) + rest, false, Missing) == ReadFrom(rest, false, Missing)
    decreases |ls|
  {
    if ls == [] {
      assert Lines(ls) + rest == rest;
    } else {
      assert IsBlank(ls[0]);
      var after := Lines(ls[1..]) + rest;
      assert Lines(ls) + rest == ls[0] + [LF] + after;
      LineLengthOf(ls[0], after);
      TrimLineOf(ls[0]);
      ReadBlanks(ls[1..], rest);
    }
  }

  lemma {:induction false} ReadHeaders(ls: seq<Line>, rest: seq<Byte>, started: bool, length: Length)
    requires forall i :: 0 <= i < |ls| ==> IsHeader(ls[i])
    requires ls != [] || started
    ensures ReadFrom(Lines(ls) + rest, started, length) == ReadFrom(rest, true, AfterHeaders(length, ls))
    decreases |ls|
  {
    if ls == [] {
      assert Lines(ls) + rest == rest;
    } else {
      assert IsHeader(ls[0]);
      var after := Lines(ls[1..]) + rest;
      assert Lines(ls) + rest == ls[0] + [LF] + after;
      LineLengthOf(ls[0], after);
      TrimLineOf(ls[0]);
      ReadHeaders(ls[1..], rest, true, AfterHeader(length, TrimLineEnd(ls[0] + [LF])));
    }
  }

  lemma {:induction false} ReadBody(end: Line, body: seq<Byte>, rest: seq<Byte>)
    requires IsBlank(end)
    ensures ReadFrom(end + [LF] + (body + rest), true, Given(|body|)) == Body(body, rest)
  {
    LineLengthOf(end, body + rest);
    TrimLineOf(end);
    assert (body + rest)[..|body|] == body && (body + rest)[|body|..] == rest;
  }

  /** A frame is read back as its body, and leaves unread exactly what follows it, whatever the
      body turns out to be. */
  lemma {:induction false} ReadsFrame(f: Frame, rest: seq<Byte>)
    requires IsFrame(f)
    ensures ReadOne(Render(f) + rest) == Body(f.body, rest)
  {
    var tail := f.end + [LF] + (f.body + rest);
    assert Render(f) + rest == Lines(f.blanks) + (Lines(f.headers) + tail);
    ReadBlanks(f.blanks, Lines(f.headers) + tail);
    ReadHeaders(f.headers, tail, false, Missing);
    LastLengthCounts(f.headers, |f.body|);
    ReadBody(f.end, f.body, rest);
  }

  ghost predicate NamesNone(ls: seq<Line>) {
    forall n: nat :: n < 0x1_0000_0000_0000_0000 ==> !LastNames(ls, n)
  }

  /** A header block that names no usable length: no length header at all, or a last one that names
      no number below 2^64. */
  ghost predicate IsLost(f: Frame) {
    IsBlock(f) && f.body == [] && NamesNone(f.headers)
  }

  /** Such a block is passed over whole, and the next read starts right after it. */
  lemma {:induction false} PassesLost(f: Frame, rest: seq<Byte>)
    requires IsLost(f)
    ensures ReadOne(Render(f) + rest) == NoLength(rest)
  {
    var tail := f.end + [LF] + rest;
    assert Render(f) + rest == Lines(f.blanks) + (Lines(f.headers) + tail);
    ReadBlanks(f.blanks, Lines(f.headers) + tail);
    ReadHeaders(f.headers, tail, false, Missing);
    NoneIsNoLength(f.headers);
    LineLengthOf(f.end, rest);
    TrimLineOf(f.end);
  }

  lemma {:induction false} NoneIsNoLength(ls: seq<Line>)
    requires forall i :: 0 <= i < |ls| ==> IsHeader(ls[i])
    requires NamesNone(ls)
    ensures !AfterHeaders(Missing, ls).Given?
  {
    if AfterHeaders(Missing, ls).Given? {
      LastLengthCounts(ls, AfterHeaders(Missing, ls).n);
    }
  }

  // ---------------------------------------------------------------------------------------
  // Streams that end early.

  ghost predicate OnlyLineEnds(s: seq<Byte>) {
    forall i :: 0 <= i < |s| ==> s[i] == 13 || s[i] == 10
  }

  /** The stream ends cleanly exactly when nothing is left of it but line ends. */
  lemma {:induction false} EndsCleanly(s: seq<Byte>)
    ensures ReadOne(s) == End <==> OnlyLineEnds(s)
    decreases |s|
  {
    if s != [] {
      var n := LineLength(s);
      TrimLineIsEmpty(s[..n]);
      assert s == s[..n] + s[n..];
      JoinLineEnds(s[..n], s[n..]);
      if TrimLineEnd(s[..n]) == [] {
        EndsCleanly(s[n..]);
      } else {
        NeverEnds(s[n..], AfterHeader(Missing, TrimLineEnd(s[..n])));
      }
    }
  }

  lemma {:induction false} JoinLineEnds(a: seq<Byte>, b: seq<Byte>)
    ensures OnlyLineEnds(a + b) <==> OnlyLineEnds(a) && OnlyLineEnds(b)
  {
    assert forall i :: 0 <= i < |a| ==> (a + b)[i] == a[i];
    assert forall i :: 0 <= i < |b| ==> (a + b)[|a| + i] == b[i];
  }

  lemma {:induction false} TrimLineIsEmpty(s: seq<Byte>)
    ensures TrimLineEnd(s) == [] <==> OnlyLineEnds(s)
  {
    if s != [] {
      TrimLineIsEmpty(s[..|s| - 1]);
      assert s == s[..|s| - 1] + [s[|s| - 1]];
    }
  }

  lemma {:induction false} NeverEnds(s: seq<Byte>, length: Length)
    ensures ReadFrom(s, true, length) != End
    decreases |s|
  {
    if s != [] {
      var n := LineLength(s);
      NeverEnds(s[n..], AfterHeader(length, TrimLineEnd(s[..n])));
    }
  }

  /** The start of a run of lines and what follows them: it holds them all, or breaks off within
      one of them. */
  lemma {:induction false} BreaksOff(ls: seq<Line>, tail: seq<Byte>, p: seq<Byte>) returns (k: nat, part: seq<Byte>)
    requires p <= Lines(ls) + tail
    ensures k <= |ls| && p == Lines(ls[..k]) + part
    ensures if k == |ls| then part <= tail else part <= ls[k]
    decreases |ls|
  {
    if ls == [] {
      k, part := 0, p;
      assert Lines(ls) + tail == tail;
    } else {
      var line, after := ls[0] + [LF], Lines(ls[1..]) + tail;
      assert Lines(ls) + tail == line + after;
      if |p| <= |ls[0]| {
        k, part := 0, p;
        assert p == (line + after)[..|p|] == ls[0][..|p|];
      } else {
        var rest := p[|line|..];
        assert p == line + rest && rest <= after by {
          assert p == (line + after)[..|p|];
        }
        k, part := BreaksOff(ls[1..], tail, rest);
        LinesOfCons(ls, k);
        assert p == Lines(ls[..k + 1]) + part;
        k := k + 1;
      }
    }
  }

  lemma {:induction false} LinesOfCons(ls: seq<Line>, k: nat)
    requires k < |ls|
    ensures Lines(ls[..k + 1]) == ls[0] + [LF] + Lines(ls[1..][..k])
  {
    assert ls[..k + 1][0] == ls[0] && ls[..k + 1][1..] == ls[1..][..k];
  }

  lemma {:induction false} LinesOfBlanks(ls: seq<Line>)
    requires forall i :: 0 <= i < |ls| ==> IsBlank(ls[i])
    ensures OnlyLineEnds(Lines(ls))
    decreases |ls|
  {
    if ls != [] {
      assert IsBlank(ls[0]);
      LinesOfBlanks(ls[1..]);
    }
  }

  /** A last line without a line feed: it is read like any other. */
  lemma {:induction false} OpenLine(part: Line)
    requires LF !in part
    ensures LineLength(part) == |part|
    ensures TrimLineEnd(part) == [] <==> IsBlank(part)
  {
    if part != [] {
      assert part[0] != LF && LF !in part[1..];
      OpenLine(part[1..]);
    }
    TrimLineOf(part);
    assert part[..|part|] == part;
  }

  /** A frame that breaks off before its end is no body and no clean end: when more of it has come
      than line ends, and it does not stop right after a carriage return within its head, the
      stream ends inside a message. */
  lemma {:induction false} CutIsCut(f: Frame, p: seq<Byte>)
    requires IsFrame(f) && p <= Render(f) && p != Render(f)
    requires !OnlyLineEnds(p)
    requires p[|p| - 1] == CR ==> |p| > |Render(f)| - |f.body|
    ensures ReadOne(p) == Cut
  {
    var all := Lines(f.headers) + (f.end + [LF] + f.body);
    var rest := PastBlanks(f.blanks, all, p);
    ReadBlanks(f.blanks, rest);
    SameEnd(Lines(f.blanks), all, p, rest);
    HeadCut(f, rest);
  }

  /** What is left of a prefix past a common start: it ends alike, and lacks as much. */
  lemma {:induction false} SameEnd(start: seq<Byte>, all: seq<Byte>, p: seq<Byte>, rest: seq<Byte>)
    requires p == start + rest && rest != [] && p != start + all
    ensures rest[|rest| - 1] == p[|p| - 1] && rest != all && |start + all| - |p| == |all| - |rest|
  {
  }

  lemma {:induction false} PastBlanks(ls: seq<Line>, tail: seq<Byte>, p: seq<Byte>) returns (rest: seq<Byte>)
    requires forall i :: 0 <= i < |ls| ==> IsBlank(ls[i])
    requires p <= Lines(ls) + tail && !OnlyLineEnds(p)
    ensures p == Lines(ls) + rest && rest <= tail && !OnlyLineEnds(rest)
  {
    var k;
    k, rest := BreaksOff(ls, tail, p);
    LinesOfBlanks(ls[..k]);
    JoinLineEnds(Lines(ls[..k]), rest);
    assert k < |ls| ==> IsBlank(ls[k]);
    assert k == |ls| ==> ls[..k] == ls;
  }

  lemma {:induction false} HeadCut(f: Frame, p: seq<Byte>)
    requires IsFrame(f)
    requires var all := Lines(f.headers) + (f.end + [LF] + f.body);
      p <= all && p != all && !OnlyLineEnds(p) && (p[|p| - 1] == CR ==> |p| > |all| - |f.body|)
    ensures ReadFrom(p, false, Missing) == Cut
  {
    var tail := f.end + [LF] + f.body;
    var k, part := BreaksOff(f.headers, tail, p);
    var before := f.headers[..k];
    assert part != [] ==> part[|part| - 1] == p[|p| - 1];
    if k < |f.headers| {
      LinesAreShort(f.headers, k);
      HeaderCut(before, f.headers[k], part);
    } else {
      assert before == f.headers;
      assert p == Lines(f.headers) + part;
      BodyCut(f, part);
    }
  }

  lemma {:induction false} BodyCut(f: Frame, part: seq<Byte>)
    requires IsFrame(f)
    requires var tail := f.end + [LF] + f.body;
      part <= tail && part != tail && (part != [] && part[|part| - 1] == CR ==> |part| > |f.end| + 1)
    ensures ReadFrom(Lines(f.headers) + part, false, Missing) == Cut
  {
    ReadHeaders(f.headers, part, false, Missing);
    LastLengthCounts(f.headers, |f.body|);
    TailCut(f, part);
  }

  lemma {:induction false} HeaderCut(before: seq<Line>, header: Line, part: seq<Byte>)
    requires forall i :: 0 <= i < |before| ==> IsHeader(before[i])
    requires IsHeader(header) && part <= header
    requires (part == [] ==> before != []) && (part != [] ==> part[|part| - 1] != CR)
    ensures ReadFrom(Lines(before) + part, false, Missing) == Cut
  {
    assert LF !in part;
    OpenLine(part);
    assert part != [] ==> part[|part|..] == [];
    if before == [] {
      assert Lines(before) + part == part;
    } else {
      ReadHeaders(before, part, false, Missing);
    }
  }

  lemma {:induction false} LinesAreShort(ls: seq<Line>, k: nat)
    requires k < |ls|
    ensures |Lines(ls[..k])| + |ls[k]| < |Lines(ls)|
    decreases k
  {
    if k > 0 {
      assert ls[..k][0] == ls[0] && ls[..k][1..] == ls[1..][..k - 1];
      LinesAreShort(ls[1..], k - 1);
    }
  }

  lemma {:induction false} TailCut(f: Frame, part: seq<Byte>)
    requires IsBlank(f.end)
    requires var tail := f.end + [LF] + f.body;
      part <= tail && part != tail && (part != [] && part[|part| - 1] == CR ==> |part| > |f.end| + 1)
    ensures ReadFrom(part, true, Given(|f.body|)) == Cut
  {
    if part != [] {
      assert |part| > |f.end|;
      var body := part[|f.end| + 1..];
      assert part == f.end + [LF] + body;
      LineLengthOf(f.end, body);
      TrimLineOf(f.end);
    }
  }

  /** The remaining case: carriage returns alone after the headers, and then the end of the stream,
      end the headers, so that a body of no bytes is read and no length is found missing. */
  lemma {:induction false} ReturnsEndHeaders(f: Frame, n: nat)
    requires IsBlock(f) && f.end != [] && n < 0x1_0000_0000_0000_0000
    ensures var r := ReadOne(Lines(f.blanks) + (Lines(f.headers) + f.end));
      && (LastNames(f.headers, n) ==> r == if n == 0 then Body([], []) else Cut)
      && (NamesNone(f.headers) ==> r == NoLength([]))
  {
    ReadBlanks(f.blanks, Lines(f.headers) + f.end);
    ReadHeaders(f.headers, f.end, false, Missing);
    LastLengthCounts(f.headers, n);
    OpenLine(f.end);
    assert f.end[|f.end|..] == [];
    if NamesNone(f.headers) {
      NoneIsNoLength(f.headers);
    }
  }

  // ---------------------------------------------------------------------------------------
  // Whole streams.

  /** What a whole stream yields, message by message: a header block without a length is passed
      over, and an end inside a message is the last thing read. */
  function ReadAll(s: seq<Byte>): seq<Read>
    decreases |s|
  {
    var r := ReadOne(s);
    match r
    case End => []
    case Cut => [Cut]
    case NoLength(rest) => Shorter(s, false, Missing); [NoLength([])] + ReadAll(rest)
    case Body(body, rest) => Shorter(s, false, Missing); [Body(body, [])] + ReadAll(rest)
  }

  lemma {:induction false} Shorter(s: seq<Byte>, started: bool, length: Length)
    ensures var r := ReadFrom(s, started, length); r.NoLength? || r.Body? ==> |r.rest| < |s|
    decreases |s|
  {
    if s != [] {
      var n := LineLength(s);
      var text := TrimLineEnd(s[..n]);
      Shorter(s[n..], started || text != [], if text != [] then AfterHeader(length, text) else length);
    }
  }

  function RenderAll(fs: seq<Frame>): seq<Byte> {
    if fs == [] then [] else Render(fs[0]) + RenderAll(fs[1..])
  }

  /** What a frame or a block without a length yields. */
  ghost function Yield(f: Frame): Read {
    if IsFrame(f) then Body(f.body, []) else NoLength([])
  }

  ghost function Yields(fs: seq<Frame>): seq<Read> {
    if fs == [] then [] else [Yield(fs[0])] + Yields(fs[1..])
  }

  lemma {:induction false} ReadsNext(f: Frame, rest: seq<Byte>)
    requires IsFrame(f) || IsLost(f)
    ensures ReadAll(Render(f) + rest) == [Yield(f)] + ReadAll(rest)
  {
    if IsFrame(f) { ReadsFrame(f, rest); } else { PassesLost(f, rest); }
  }

  /** Reading any frames, with blocks that name no length among them, and blank lines at the end,
      gives the bodies in order, each such block reported and passed over, and then the clean
      end. */
  lemma {:induction false} ReadsStream(fs: seq<Frame>, blanks: seq<Line>)
    requires forall i :: 0 <= i < |fs| ==> IsFrame(fs[i]) || IsLost(fs[i])
    requires forall i :: 0 <= i < |blanks| ==> IsBlank(blanks[i])
    ensures ReadAll(RenderAll(fs) + Lines(blanks)) == Yields(fs)
    decreases |fs|
  {
    if fs == [] {
      ReadBlanks(blanks, []);
      assert RenderAll(fs) + Lines(blanks) == Lines(blanks) == Lines(blanks) + [];
    } else {
      assert IsFrame(fs[0]) || IsLost(fs[0]);
      var rest := RenderAll(fs[1..]) + Lines(blanks);
      ReadsStream(fs[1..], blanks);
      ReadsNext(fs[0], rest);
      Associates(Render(fs[0]), RenderAll(fs[1..]), Lines(blanks));
    }
  }

  lemma {:induction false} Associates(a: seq<Byte>, b: seq<Byte>, c: seq<Byte>)
    ensures a + b + c == a + (b + c)
  {
  }

  // ---------------------------------------------------------------------------------------
  // The frames this server writes, read back.

  const NAME := Ascii("Content-Length")

  /** The length header this server writes, without its line end. */
  function LengthHeader(n: nat): seq<Byte> {
    NAME + [COLON] + ([SPACE] + Decimal(n))
  }

  lemma {:induction false} LengthHeaderText(n: nat)
    ensures Ascii("Content-Length: ") + Decimal(n) == LengthHeader(n)
    ensures IsLabel(NAME) && IsHeader(LengthHeader(n) + [CR])
  {
    NameIsLabel();
    assert LF !in Decimal(n);
    assert (LengthHeader(n) + [CR])[0] == NAME[0] == 67;
  }

  lemma {:induction false} NameIsLabel()
    ensures Ascii("Content-Length: ") == NAME + [COLON] + [SPACE]
    ensures IsLabel(NAME) && LF !in NAME
  {
    NameIsName();
    assert AllSpaces([]) && NAME == [] + NAME + [];
    assert forall i :: 0 <= i < 14 ==> NAME[i] != LF;
  }

  lemma {:induction false} NameIsName()
    ensures IsName(NAME)
  {
    assert forall i :: 0 <= i < 14 ==> NAME[i] == "Content-Length"[i] as int;
  }

  lemma {:induction false} LengthHeaderNames(n: nat)
    ensures Names(LengthHeader(n) + [CR], n)
  {
    LengthHeaderText(n);
    var value := [SPACE] + Decimal(n) + [CR];
    assert value == [SPACE] + ([] + ([] + Decimal(n))) + [CR];
    assert AllSpaces([SPACE]) && AllSpaces([CR]) && AllZeros([]);
    assert IsNumeral(value, n);
    assert LengthHeader(n) + [CR] == NAME + [COLON] + value;
  }

  function WrittenFrame(body: seq<Byte>): Frame {
    Frame([], [LengthHeader(|body|) + [CR]], [CR], body)
  }

  /** What `write_message` writes is a frame. */
  lemma {:induction false} WritesFrame(body: seq<Byte>)
    requires |body| < U64_LIMIT
    ensures IsFrame(WrittenFrame(body)) && Render(WrittenFrame(body)) == Written(body)
  {
    var line := LengthHeader(|body|) + [CR];
    LengthHeaderNames(|body|);
    LengthHeaderText(|body|);
    assert LastNames([line], |body|) by {
      assert NamesLast([line], 0, |body|);
    }
    RenderOne(LengthHeader(|body|), body);
  }

  lemma {:induction false} RenderOne(text: seq<Byte>, body: seq<Byte>)
    ensures Render(Frame([], [text + [CR]], [CR], body)) == text + [CR, LF, CR, LF] + body
  {
    assert [text + [CR]][1..] == [];
    assert Lines([text + [CR]]) == text + [CR] + [LF] + [];
  }

  function WrittenAll(bodies: seq<seq<Byte>>): seq<Byte> {
    if bodies == [] then [] else Written(bodies[0]) + WrittenAll(bodies[1..])
  }

  function BodiesRead(bodies: seq<seq<Byte>>): (r: seq<Read>)
    ensures |r| == |bodies| && forall i :: 0 <= i < |r| ==> r[i] == Body(bodies[i], [])
  {
    seq(|bodies|, i requires 0 <= i < |bodies| => Body(bodies[i], []))
  }

  /** What this server writes it reads back: every body, in order, then a clean end. */
  lemma {:induction false} RoundTrip(bodies: seq<seq<Byte>>)
    requires forall i :: 0 <= i < |bodies| ==> |bodies[i]| < U64_LIMIT
    ensures ReadAll(WrittenAll(bodies)) == BodiesRead(bodies)
    decreases |bodies|
  {
    if bodies != [] {
      assert |bodies[0]| < U64_LIMIT;
      WritesFrame(bodies[0]);
      ReadsFrame(WrittenFrame(bodies[0]), WrittenAll(bodies[1..]));
      RoundTrip(bodies[1..]);
    }
  }
}
