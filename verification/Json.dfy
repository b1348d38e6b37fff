/** JSON values and their compact text (sections 2 to 7 of RFC 8259).

    Compact arrays and objects are self-delimiting: where one ends can be read off the text
    itself, so none is a proper prefix of another, and printing is injective. */
module Json {
  import opened Wrappers

  predicate IsNumberChar(c: char) {
    '0' <= c <= '9' || c in "+-.eE"
  }

  /** A number's text begins with a digit or a minus sign and holds only number characters. */
  predicate IsNumberText(s: string) {
    |s| > 0 && ('0' <= s[0] <= '9' || s[0] == '-') && forall i :: 0 <= i < |s| ==> IsNumberChar(s[i])
  }

  /** A number is the text it prints as, which keeps an integer and the float of its value apart. */
  type NumberText = s: string | IsNumberText(s) witness "0"

  datatype Field = Field(key: string, value: Json)

  datatype Json =
    | Null
    | Bool(b: bool)
    | Num(text: NumberText)
    | Str(s: string)
    | Arr(items: seq<Json>)
    | Obj(fields: seq<Field>)

  function HexDigit(n: nat): char
    requires n < 16
  {
    if n < 10 then '0' + n as char else 'a' + (n - 10) as char
  }

  /** One character as a string carries it. */
  function EscapeChar(c: char): (s: string)
    ensures |s| >= 1
  {
    if c == '\"' then "\\\"" else if c == '\\' then "\\\\"
    else if c == '\n' then "\\n" else if c == '\r' then "\\r" else if c == '\t' then "\\t"
    else if c as int == 8 then "\\b" else if c as int == 12 then "\\f"
    else if c as int < 32 then "\\u00" + [HexDigit(c as int / 16), HexDigit(c as int % 16)]
    else [c]
  }

  function Escape(s: string): string {
    if s == "" then "" else EscapeChar(s[0]) + Escape(s[1..])
  }

  function Quote(s: string): string {
    "\"" + Escape(s) + "\""
  }

  function Print(j: Json): string
    decreases j, 1
  {
    match j
    case Null => "null"
    case Bool(b) => if b then "true" else "false"
    case Num(text) => text
    case Str(s) => Quote(s)
    case Arr(items) => "[" + PrintItems(items) + "]"
    case Obj(fields) => "{" + PrintFields(fields) + "}"
  }

  function PrintItems(items: seq<Json>): string
    decreases items, 0
  {
    if items == [] then ""
    else Print(items[0]) + if |items| == 1 then "" else "," + PrintItems(items[1..])
  }

  function PrintField(f: Field): string
    decreases f, 0
  {
    Quote(f.key) + ":" + Print(f.value)
  }

  function PrintFields(fields: seq<Field>): string
    decreases fields, 0
  {
    if fields == [] then ""
    else PrintField(fields[0]) + if |fields| == 1 then "" else "," + PrintFields(fields[1..])
  }

  // ---------------------------------------------------------------------------------------
  // Reading where a value ends.

  datatype Mode = Plain | Quoted | Escaped

  function Shift(n: nat, o: Option<nat>): Option<nat> {
    match o case None => None case Some(k) => Some(n + k)
  }

  /** How many characters of `s` it takes to close `depth` open brackets. */
  function ClosesAt(s: string, depth: nat, mode: Mode): Option<nat>
    decreases |s|
  {
    if s == "" then None
    else
      var c, rest := s[0], s[1..];
      match mode
      case Escaped => Shift(1, ClosesAt(rest, depth, Quoted))
      case Quoted => Shift(1, ClosesAt(rest, depth, if c == '\\' then Escaped else if c == '\"' then Plain else Quoted))
      case Plain =>
        if c == '\"' then Shift(1, ClosesAt(rest, depth, Quoted))
        else if c == '[' || c == '{' then Shift(1, ClosesAt(rest, depth + 1, Plain))
        else if c == ']' || c == '}' then
          if depth <= 1 then Some(1) else Shift(1, ClosesAt(rest, depth - 1, Plain))
        else Shift(1, ClosesAt(rest, depth, Plain))
  }

  /** Reading on from one place: `s` is passed at the same depth and in the same mode. */
  ghost predicate Passed(s: string, rest: string, depth: nat, mode: Mode) {
    ClosesAt(s + rest, depth, mode) == Shift(|s|, ClosesAt(rest, depth, mode))
  }

  lemma {:induction false} Cons(c: char, s: string, rest: string)
    ensures ([c] + s + rest)[0] == c && ([c] + s + rest)[1..] == s + rest
  {
  }

  /** Text without brackets and quotes is passed. */
  lemma {:induction false} PassText(s: string, rest: string, depth: nat)
    requires forall i :: 0 <= i < |s| ==> s[i] !in "[]{}\""
    ensures Passed(s, rest, depth, Plain)
  {
    if s == "" {
      assert s + rest == rest;
    } else {
      PassText(s[1..], rest, depth);
      Cons(s[0], s[1..], rest);
      assert s == [s[0]] + s[1..];
    }
  }

  lemma {:induction false} PassPlainQuoted(s: string, rest: string, depth: nat)
    requires forall i :: 0 <= i < |s| ==> s[i] != '\\' && s[i] != '\"'
    ensures Passed(s, rest, depth, Quoted)
  {
    if s == "" {
      assert s + rest == rest;
    } else {
      PassPlainQuoted(s[1..], rest, depth);
      Cons(s[0], s[1..], rest);
      assert s == [s[0]] + s[1..];
    }
  }

  lemma {:induction false} PassEscapeChar(c: char, rest: string, depth: nat)
    ensures Passed(EscapeChar(c), rest, depth, Quoted)
  {
    var s := EscapeChar(c);
    if s[0] == '\\' {
      assert (s + rest)[1..] == s[1..] + rest;
      assert (s + rest)[1..][1..] == s[2..] + rest;
      PassPlainQuoted(s[2..], rest, depth);
    } else {
      PassPlainQuoted(s, rest, depth);
    }
  }

  lemma {:induction false} PassEscape(s: string, rest: string, depth: nat)
    ensures Passed(Escape(s), rest, depth, Quoted)
  {
    if s == "" {
      assert Escape(s) + rest == rest;
    } else {
      PassEscape(s[1..], rest, depth);
      PassEscapeChar(s[0], Escape(s[1..]) + rest, depth);
      assert Escape(s) + rest == EscapeChar(s[0]) + (Escape(s[1..]) + rest);
    }
  }

  lemma {:induction false} PassQuote(s: string, rest: string, depth: nat)
    ensures Passed(Quote(s), rest, depth, Plain)
  {
    var tail := "\"" + rest;
    assert (Quote(s) + rest)[1..] == Escape(s) + tail;
    PassEscape(s, tail, depth);
    assert tail[1..] == rest;
  }

  lemma {:induction false} PassJoin(a: string, b: string, rest: string, depth: nat)
    requires Passed(a, b + rest, depth, Plain) && Passed(b, rest, depth, Plain)
    ensures Passed(a + b, rest, depth, Plain)
  {
    assert (a + b) + rest == a + (b + rest);
  }

  /** A bracketed text is passed if its inside is, one level deeper. */
  lemma {:induction false} PassBrackets(open: char, s: string, close: char, rest: string, depth: nat)
    requires (open == '[' || open == '{') && (close == ']' || close == '}') && depth >= 1
    requires Passed(s, [close] + rest, depth + 1, Plain)
    ensures Passed([open] + s + [close], rest, depth, Plain)
  {
    var all := [open] + s + [close];
    assert (all + rest)[1..] == s + ([close] + rest);
    assert ([close] + rest)[1..] == rest;
  }

  lemma {:induction false} PassValue(j: Json, rest: string, depth: nat)
    requires depth >= 1
    ensures Passed(Print(j), rest, depth, Plain)
    decreases j, 1
  {
    match j
    case Null => PassText("null", rest, depth);
    case Bool(b) => PassText(Print(j), rest, depth);
    case Num(text) =>
      forall i | 0 <= i < |text| ensures text[i] !in "[]{}\"" {
        assert IsNumberChar(text[i]);
      }
      PassText(text, rest, depth);
    case Str(s) => PassQuote(s, rest, depth);
    case Arr(items) =>
      PassItems(items, "]" + rest, depth + 1);
      PassBrackets('[', PrintItems(items), ']', rest, depth);
    case Obj(fields) =>
      PassFields(fields, "}" + rest, depth + 1);
      PassBrackets('{', PrintFields(fields), '}', rest, depth);
  }

  lemma {:induction false} PassItems(items: seq<Json>, rest: string, depth: nat)
    requires depth >= 1
    ensures Passed(PrintItems(items), rest, depth, Plain)
    decreases items, 0
  {
    if items == [] {
      assert "" + rest == rest;
    } else {
      var more := if |items| == 1 then "" else "," + PrintItems(items[1..]);
      if |items| == 1 {
        assert more + rest == rest;
      } else {
        PassItems(items[1..], rest, depth);
        PassText(",", PrintItems(items[1..]) + rest, depth);
        PassJoin(",", PrintItems(items[1..]), rest, depth);
      }
      PassValue(items[0], more + rest, depth);
      PassJoin(Print(items[0]), more, rest, depth);
    }
  }

  lemma {:induction false} PassField(f: Field, rest: string, depth: nat)
    requires depth >= 1
    ensures Passed(PrintField(f), rest, depth, Plain)
    decreases f, 0
  {
    var value := Print(f.value);
    PassValue(f.value, rest, depth);
    PassText(":", value + rest, depth);
    PassJoin(":", value, rest, depth);
    PassQuote(f.key, ":" + value + rest, depth);
    assert ":" + value + rest == (":" + value) + rest;
    PassJoin(Quote(f.key), ":" + value, rest, depth);
    assert PrintField(f) == Quote(f.key) + (":" + value);
  }

  lemma {:induction false} PassFields(fields: seq<Field>, rest: string, depth: nat)
    requires depth >= 1
    ensures Passed(PrintFields(fields), rest, depth, Plain)
    decreases fields, 0
  {
    if fields == [] {
      assert "" + rest == rest;
    } else {
      var more := if |fields| == 1 then "" else "," + PrintFields(fields[1..]);
      if |fields| == 1 {
        assert more + rest == rest;
      } else {
        PassFields(fields[1..], rest, depth);
        PassText(",", PrintFields(fields[1..]) + rest, depth);
        PassJoin(",", PrintFields(fields[1..]), rest, depth);
      }
      PassField(fields[0], more + rest, depth);
      PassJoin(PrintField(fields[0]), more, rest, depth);
    }
  }

  /** The end of a printed array is read off the text, whatever follows it. */
  lemma {:induction false} ArrayEnds(items: seq<Json>, rest: string)
    ensures ClosesAt(Print(Arr(items)) + rest, 0, Plain) == Some(|Print(Arr(items))|)
  {
    var inside := PrintItems(items);
    var tail := "]" + rest;
    assert (Print(Arr(items)) + rest)[1..] == inside + tail;
    PassItems(items, tail, 1);
  }

  /** No printed array is a proper prefix of another, whatever follows. */
  lemma {:induction false} ArraysAreSelfDelimiting(a: seq<Json>, b: seq<Json>, rest: string)
    requires Print(Arr(a)) <= Print(Arr(b)) + rest
    ensures Print(Arr(a)) == Print(Arr(b))
  {
    var s, t := Print(Arr(a)), Print(Arr(b)) + rest;
    ArrayEnds(a, t[|s|..]);
    assert s + t[|s|..] == t;
    ArrayEnds(b, rest);
    assert t[..|s|] == s;
  }

  // ---------------------------------------------------------------------------------------
  // Printing is injective.

  /** What can follow a value inside compact text. */
  predicate Follows(rest: string) {
    rest == "" || rest[0] in ",]}"
  }

  /** How the text of a value begins, which tells its kind. */
  lemma {:induction false} FirstChar(j: Json)
    ensures Print(j) != ""
    ensures var c := Print(j)[0];
      match j
      case Null => c == 'n'
      case Bool(b) => c == if b then 't' else 'f'
      case Num(_) => '0' <= c <= '9' || c == '-'
      case Str(_) => c == '\"'
      case Arr(_) => c == '['
      case Obj(_) => c == '{'
  {
  }

  lemma {:induction false} NumberUnique(a: string, b: string, r: string, r': string)
    requires forall i :: 0 <= i < |a| ==> IsNumberChar(a[i])
    requires forall i :: 0 <= i < |b| ==> IsNumberChar(b[i])
    requires Follows(r) && Follows(r') && a + r == b + r'
    ensures a == b && r == r'
  {
    assert a == (a + r)[..|a|] && b == (b + r')[..|b|];
    assert r == (a + r)[|a|..] && r' == (b + r')[|b|..];
  }

  /** Equal texts begin alike. */
  lemma {:induction false} SameHead(a: string, x: string, b: string, y: string)
    requires a + x == b + y && a != "" && b != ""
    ensures a[0] == b[0]
  {
    assert (a + x)[0] == a[0] && (b + y)[0] == b[0];
  }

  /** Equal texts with equal beginnings end alike. */
  lemma {:induction false} SameTail(a: string, x: string, y: string)
    requires a + x == a + y
    ensures x == y
  {
    assert (a + x)[|a|..] == x && (a + y)[|a|..] == y;
  }

  /** The escapes form a prefix code, and none begins with a quote. */
  lemma {:induction false} EscapeCharUnique(c: char, d: char, x: string, y: string)
    requires EscapeChar(c) + x == EscapeChar(d) + y
    ensures c == d && x == y
  {
    var s, t := EscapeChar(c) + x, EscapeChar(d) + y;
    assert s[0] == EscapeChar(c)[0] && t[0] == EscapeChar(d)[0];
    if s[0] == '\\' {
      assert s[1] == EscapeChar(c)[1] && t[1] == EscapeChar(d)[1];
      if s[1] == 'u' {
        assert s[4] == HexDigit(c as int / 16) && t[4] == HexDigit(d as int / 16);
        assert s[5] == HexDigit(c as int % 16) && t[5] == HexDigit(d as int % 16);
      }
    }
    assert x == s[|EscapeChar(c)|..] && y == t[|EscapeChar(d)|..];
  }

  lemma {:induction false} EscapeStep(a: string, r: string)
    requires a != ""
    ensures Escape(a) + ("\"" + r) == EscapeChar(a[0]) + (Escape(a[1..]) + ("\"" + r))
    ensures EscapeChar(a[0])[0] != '\"'
  {
    var first, rest, close := EscapeChar(a[0]), Escape(a[1..]), "\"" + r;
    assert Escape(a) == first + rest;
    assert (first + rest) + close == first + (rest + close);
  }

  lemma {:induction false} EscapeUnique(a: string, b: string, r: string, r': string)
    requires Escape(a) + ("\"" + r) == Escape(b) + ("\"" + r')
    ensures a == b && r == r'
  {
    if a != "" { EscapeStep(a, r); } else { assert "" + ("\"" + r) == "\"" + r; }
    if b != "" { EscapeStep(b, r'); } else { assert "" + ("\"" + r') == "\"" + r'; }
    SameHead(if a == "" then "\"" else EscapeChar(a[0]), if a == "" then r else Escape(a[1..]) + ("\"" + r),
             if b == "" then "\"" else EscapeChar(b[0]), if b == "" then r' else Escape(b[1..]) + ("\"" + r'));
    if a == "" {
      SameTail("\"", r, r');
    } else {
      EscapeCharUnique(a[0], b[0], Escape(a[1..]) + ("\"" + r), Escape(b[1..]) + ("\"" + r'));
      EscapeUnique(a[1..], b[1..], r, r');
      assert a == [a[0]] + a[1..] && b == [b[0]] + b[1..];
    }
  }

  lemma {:induction false} QuoteUnique(a: string, b: string, r: string, r': string)
    requires Quote(a) + r == Quote(b) + r'
    ensures a == b && r == r'
  {
    assert Quote(a) + r == "\"" + (Escape(a) + ("\"" + r));
    assert Quote(b) + r' == "\"" + (Escape(b) + ("\"" + r'));
    SameTail("\"", Escape(a) + ("\"" + r), Escape(b) + ("\"" + r'));
    EscapeUnique(a, b, r, r');
  }

  /** Values with texts that begin alike are of one kind, and truth values are equal. */
  lemma {:induction false} SameKind(j: Json, k: Json, r: string, r': string)
    requires Print(j) + r == Print(k) + r'
    ensures match j
      case Null => k.Null?
      case Bool(b) => k == j
      case Num(_) => k.Num?
      case Str(_) => k.Str?
      case Arr(_) => k.Arr?
      case Obj(_) => k.Obj?
  {
    FirstChar(j);
    FirstChar(k);
    SameHead(Print(j), r, Print(k), r');
  }

  /** A bracketed text, cut after its opening bracket. */
  lemma {:induction false} OpenBracket(open: char, inside: string, close: char, r: string)
    ensures ([open] + inside + [close]) + r == [open] + (inside + ([close] + r))
  {
  }

  /** A value and what follows it are determined by the text of both. */
  lemma {:induction false} PrintUnique(j: Json, k: Json, r: string, r': string)
    requires Follows(r) && Follows(r')
    requires Print(j) + r == Print(k) + r'
    ensures j == k && r == r'
    decreases j, 1
  {
    SameKind(j, k, r, r');
    match j
    case Null => SameTail("null", r, r');
    case Bool(b) => SameTail(Print(j), r, r');
    case Num(text) => NumberUnique(text, k.text, r, r');
    case Str(x) => QuoteUnique(x, k.s, r, r');
    case Arr(items) =>
      OpenBracket('[', PrintItems(items), ']', r);
      OpenBracket('[', PrintItems(k.items), ']', r');
      SameTail("[", PrintItems(items) + ("]" + r), PrintItems(k.items) + ("]" + r'));
      ItemsUnique(items, k.items, r, r');
    case Obj(fields) =>
      OpenBracket('{', PrintFields(fields), '}', r);
      OpenBracket('{', PrintFields(k.fields), '}', r');
      SameTail("{", PrintFields(fields) + ("}" + r), PrintFields(k.fields) + ("}" + r'));
      FieldsUnique(fields, k.fields, r, r');
  }

  /** What follows an item of a list: the closing bracket, or a comma and the rest. */
  function After(last: bool, rest: string, close: char, r: string): (s: string)
    ensures Follows(s) || close !in "]}"
  {
    if last then [close] + r else "," + (rest + ([close] + r))
  }

  lemma {:induction false} AfterUnique(
    last: bool, rest: string, last': bool, rest': string, close: char, r: string, r': string)
    requires close != ',' && After(last, rest, close, r) == After(last', rest', close, r')
    ensures last == last' && (last ==> r == r')
    ensures !last ==> rest + ([close] + r) == rest' + ([close] + r')
  {
    SameHead(if last then [close] else ",", if last then r else rest + ([close] + r),
             if last' then [close] else ",", if last' then r' else rest' + ([close] + r'));
    if last {
      SameTail([close], r, r');
    } else {
      SameTail(",", rest + ([close] + r), rest' + ([close] + r'));
    }
  }

  lemma {:induction false} ItemsStep(a: seq<Json>, r: string)
    requires a != []
    ensures PrintItems(a) + ("]" + r) == Print(a[0]) + After(|a| == 1, PrintItems(a[1..]), ']', r)
    ensures Print(a[0]) != "" && Print(a[0])[0] != ']'
  {
    FirstChar(a[0]);
  }

  lemma {:induction false} BothEmpty(a: seq<Json>, b: seq<Json>, r: string, r': string)
    requires PrintItems(a) + ("]" + r) == PrintItems(b) + ("]" + r')
    ensures a == [] <==> b == []
    ensures a == [] ==> r == r'
  {
    if a != [] { ItemsStep(a, r); } else { assert "" + ("]" + r) == "]" + r; }
    if b != [] { ItemsStep(b, r'); } else { assert "" + ("]" + r') == "]" + r'; }
    SameHead(if a == [] then "]" else Print(a[0]), if a == [] then r else After(|a| == 1, PrintItems(a[1..]), ']', r),
              if b == [] then "]" else Print(b[0]),
             if b == [] then r' else After(|b| == 1, PrintItems(b[1..]), ']', r'));
    if a == [] {
      SameTail("]", r, r');
    }
  }

  lemma {:induction false} ItemsUnique(a: seq<Json>, b: seq<Json>, r: string, r': string)
    requires PrintItems(a) + ("]" + r) == PrintItems(b) + ("]" + r')
    ensures a == b && r == r'
    decreases a, 0
  {
    BothEmpty(a, b, r, r');
    if a != [] {
      ItemsStep(a, r);
      ItemsStep(b, r');
      var x, y := After(|a| == 1, PrintItems(a[1..]), ']', r), After(|b| == 1, PrintItems(b[1..]), ']', r');
      PrintUnique(a[0], b[0], x, y);
      AfterUnique(|a| == 1, PrintItems(a[1..]), |b| == 1, PrintItems(b[1..]), ']', r, r');
      if |a| > 1 {
        ItemsUnique(a[1..], b[1..], r, r');
      }
      assert a == [a[0]] + a[1..] && b == [b[0]] + b[1..];
    }
  }

  lemma {:induction false} FieldUnique(f: Field, g: Field, r: string, r': string)
    requires Follows(r) && Follows(r')
    requires PrintField(f) + r == PrintField(g) + r'
    ensures f == g && r == r'
    decreases f, 0
  {
    FieldStep(f, r);
    FieldStep(g, r');
    QuoteUnique(f.key, g.key, ":" + (Print(f.value) + r), ":" + (Print(g.value) + r'));
    SameTail(":", Print(f.value) + r, Print(g.value) + r');
    PrintUnique(f.value, g.value, r, r');
  }

  lemma {:induction false} FieldStep(f: Field, r: string)
    ensures PrintField(f) + r == Quote(f.key) + (":" + (Print(f.value) + r))
    ensures PrintField(f) != "" && PrintField(f)[0] == '\"'
  {
  }

  lemma {:induction false} FieldsStep(a: seq<Field>, r: string)
    requires a != []
    ensures PrintFields(a) + ("}" + r) == PrintField(a[0]) + After(|a| == 1, PrintFields(a[1..]), '}', r)
    ensures PrintField(a[0]) != "" && PrintField(a[0])[0] == '\"'
  {
  }

  lemma {:induction false} FieldsUnique(a: seq<Field>, b: seq<Field>, r: string, r': string)
    requires PrintFields(a) + ("}" + r) == PrintFields(b) + ("}" + r')
    ensures a == b && r == r'
    decreases a, 0
  {
    if a != [] { FieldsStep(a, r); } else { assert "" + ("}" + r) == "}" + r; }
    if b != [] { FieldsStep(b, r'); } else { assert "" + ("}" + r') == "}" + r'; }
    SameHead(if a == [] then "}" else PrintField(a[0]),
             if a == [] then r else After(|a| == 1, PrintFields(a[1..]), '}', r),
             if b == [] then "}" else PrintField(b[0]),
             if b == [] then r' else After(|b| == 1, PrintFields(b[1..]), '}', r'));
    if a == [] {
      SameTail("}", r, r');
    } else {
      var x, y := After(|a| == 1, PrintFields(a[1..]), '}', r), After(|b| == 1, PrintFields(b[1..]), '}', r');
      FieldUnique(a[0], b[0], x, y);
      AfterUnique(|a| == 1, PrintFields(a[1..]), |b| == 1, PrintFields(b[1..]), '}', r, r');
      if |a| > 1 {
        FieldsUnique(a[1..], b[1..], r, r');
      }
      assert a == [a[0]] + a[1..] && b == [b[0]] + b[1..];
    }
  }
}
