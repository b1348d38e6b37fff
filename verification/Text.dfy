/** Text as the server sees it: a sequence of Unicode scalar values, addressed by UTF-8 byte
    offsets and measured in the wire encoding a client negotiated.

    Byte offsets and wire columns are both prefix sums over the text, so one function,
    `Width`, stands for both; `Offset` is the UTF-8 case. */
module Text {
  /** How the two ends of the wire have agreed to count columns. */
  datatype Encoding = Utf8 | Utf16

  function Utf8Len(c: char): (n: nat)
    ensures 1 <= n <= 4
  {
    if (c as int) < 0x80 then 1
    else if (c as int) < 0x800 then 2
    else if (c as int) < 0x10000 then 3
    else 4
  }

  function Utf16Len(c: char): (n: nat)
    ensures 1 <= n <= 2
  {
    if (c as int) < 0x10000 then 1 else 2
  }

  /** The wire length of one scalar value. */
  function Units(enc: Encoding, c: char): (n: nat)
    ensures n >= 1
  {
    match enc
    case Utf8 => Utf8Len(c)
    case Utf16 => Utf16Len(c)
  }

  /** The wire length of the first `k` scalar values of `t`. */
  function Width(enc: Encoding, t: string, k: nat): nat
    requires k <= |t|
  {
    if k == 0 then 0 else Width(enc, t, k - 1) + Units(enc, t[k - 1])
  }

  /** The byte offset of the `k`th scalar value of `t`. */
  function Offset(t: string, k: nat): nat
    requires k <= |t|
  {
    Width(Utf8, t, k)
  }

  /** The length of `t` in bytes. */
  function ByteLen(t: string): nat {
    Offset(t, |t|)
  }

  lemma {:induction false} WidthGrows(enc: Encoding, t: string, i: nat, j: nat)
    requires i <= j <= |t|
    ensures Width(enc, t, i) + (j - i) <= Width(enc, t, j)
    decreases j
  {
    if i < j { WidthGrows(enc, t, i, j - 1); }
  }

  /** Prefix sums do not look past their prefix. */
  lemma {:induction false} WidthOfPrefix(enc: Encoding, t: string, u: string, k: nat)
    requires k <= |t| && k <= |u| && t[..k] == u[..k]
    ensures Width(enc, t, k) == Width(enc, u, k)
  {
    if k > 0 {
      assert t[k - 1] == t[..k][k - 1] == u[..k][k - 1] == u[k - 1];
      assert t[..k - 1] == t[..k][..k - 1] == u[..k][..k - 1] == u[..k - 1];
      WidthOfPrefix(enc, t, u, k - 1);
    }
  }

  /** The width of a slice is a difference of prefix sums. */
  lemma {:induction false} WidthOfSlice(enc: Encoding, t: string, i: nat, j: nat)
    requires i <= j <= |t|
    ensures Width(enc, t[i..j], j - i) == Width(enc, t, j) - Width(enc, t, i)
    decreases j
  {
    if i < j {
      WidthOfSlice(enc, t, i, j - 1);
      assert t[i..j][..j - 1 - i] == t[i..j - 1];
      WidthOfPrefix(enc, t[i..j], t[i..j - 1], j - 1 - i);
    }
  }

  /** The last scalar boundary at or before byte `b`, as a scalar index; the text's end for a
      byte past it. */
  function Floor(t: string, b: nat): (k: nat)
    ensures k <= |t| && Offset(t, k) <= b
    ensures k < |t| ==> b < Offset(t, k + 1)
  {
    FloorFrom(t, b, |t|)
  }

  function FloorFrom(t: string, b: nat, n: nat): (k: nat)
    requires n <= |t| && (n < |t| ==> b < Offset(t, n + 1))
    ensures k <= n && Offset(t, k) <= b
    ensures k < |t| ==> b < Offset(t, k + 1)
  {
    if Offset(t, n) <= b then n else FloorFrom(t, b, n - 1)
  }

  /** Whether byte `b` falls between two scalar values (or at either end of the text). */
  predicate IsBoundary(t: string, b: nat) {
    Offset(t, Floor(t, b)) == b
  }

  lemma {:induction false} FloorOfOffset(t: string, k: nat)
    requires k <= |t|
    ensures Floor(t, Offset(t, k)) == k && IsBoundary(t, Offset(t, k))
  {
    var f := Floor(t, Offset(t, k));
    if f < k { WidthGrows(Utf8, t, f + 1, k); }
    if k < f { WidthGrows(Utf8, t, k, f); }
  }

  /** `Floor` is monotone, so clamped offsets keep their order. */
  lemma {:induction false} FloorGrows(t: string, a: nat, b: nat)
    requires a <= b
    ensures Floor(t, a) <= Floor(t, b)
  {
    var f, g := Floor(t, a), Floor(t, b);
    if g < f { WidthGrows(Utf8, t, g + 1, f); }
  }

  /** The slice of `t` between two byte offsets: Rust panics unless both are boundaries. */
  function Slice(t: string, a: nat, b: nat): string
    requires a <= b && IsBoundary(t, a) && IsBoundary(t, b)
  {
    FloorGrows(t, a, b);
    t[Floor(t, a)..Floor(t, b)]
  }

  lemma {:induction false} SliceOfIndices(t: string, i: nat, j: nat)
    requires i <= j <= |t|
    ensures Offset(t, i) <= Offset(t, j)
    ensures IsBoundary(t, Offset(t, i)) && IsBoundary(t, Offset(t, j))
    ensures Slice(t, Offset(t, i), Offset(t, j)) == t[i..j]
  {
    WidthGrows(Utf8, t, i, j);
    FloorOfOffset(t, i);
    FloorOfOffset(t, j);
  }

  // ---------------------------------------------------------------------------------------
  // Rows and columns.

  /** How many line feeds the first `k` scalar values hold. */
  function Newlines(t: string, k: nat): (n: nat)
    requires k <= |t|
    ensures n <= k
  {
    if k == 0 then 0 else Newlines(t, k - 1) + if t[k - 1] == '\n' then 1 else 0
  }

  /** The scalar index right after the last line feed before `k`: the start of its line. */
  function LineBegin(t: string, k: nat): (b: nat)
    requires k <= |t|
    ensures b <= k
    ensures forall i :: b <= i < k ==> t[i] != '\n'
    ensures b > 0 ==> t[b - 1] == '\n'
  {
    if k == 0 then 0 else if t[k - 1] == '\n' then k else LineBegin(t, k - 1)
  }

  predicate IsBreak(c: char) {
    c == '\n' || c == '\r'
  }

  /** The scalar index right after the last line feed or carriage return before `k`: where the
      engine restarted its column count. */
  function ColumnBegin(t: string, k: nat): (b: nat)
    requires k <= |t|
    ensures b <= k
    ensures forall i :: b <= i < k ==> !IsBreak(t[i])
    ensures b > 0 ==> IsBreak(t[b - 1])
  {
    if k == 0 then 0 else if IsBreak(t[k - 1]) then k else ColumnBegin(t, k - 1)
  }

  /** The engine's 1-based row of scalar index `k`. */
  function RowAt(t: string, k: nat): nat
    requires k <= |t|
  {
    Newlines(t, k) + 1
  }

  /** The engine's 1-based column of scalar index `k`, in scalar values. */
  function ColumnAt(t: string, k: nat): nat
    requires k <= |t|
  {
    k - ColumnBegin(t, k) + 1
  }

  lemma {:induction false} NewlinesOfPrefix(t: string, u: string, k: nat)
    requires k <= |t| && k <= |u| && t[..k] == u[..k]
    ensures Newlines(t, k) == Newlines(u, k)
  {
    if k > 0 {
      assert t[k - 1] == t[..k][k - 1] == u[..k][k - 1] == u[k - 1];
      assert t[..k - 1] == t[..k][..k - 1] == u[..k][..k - 1] == u[..k - 1];
      NewlinesOfPrefix(t, u, k - 1);
    }
  }

  lemma {:induction false} NewlinesOfSlice(t: string, i: nat, j: nat)
    requires i <= j <= |t|
    ensures Newlines(t, j) == Newlines(t, i) + Newlines(t[i..j], j - i)
    decreases j
  {
    if i < j {
      NewlinesOfSlice(t, i, j - 1);
      assert t[i..j][..j - 1 - i] == t[i..j - 1];
      NewlinesOfPrefix(t[i..j], t[i..j - 1], j - 1 - i);
    }
  }

  lemma {:induction false} NewlinesGrow(t: string, i: nat, j: nat)
    requires i <= j <= |t|
    ensures Newlines(t, i) <= Newlines(t, j)
    ensures Newlines(t, i) == Newlines(t, j) <==> forall k :: i <= k < j ==> t[k] != '\n'
    decreases j
  {
    if i < j { NewlinesGrow(t, i, j - 1); }
  }

  /** Two places of one line have one line start. */
  lemma {:induction false} SameLineBegin(t: string, i: nat, j: nat)
    requires i <= j <= |t|
    requires forall k :: i <= k < j ==> t[k] != '\n'
    ensures LineBegin(t, j) == LineBegin(t, i)
    decreases j
  {
    if i < j { SameLineBegin(t, i, j - 1); }
  }

  /** Two places with no break between them are counted from one column start. */
  lemma {:induction false} SameColumnBegin(t: string, i: nat, j: nat)
    requires i <= j <= |t|
    requires forall k :: i <= k < j ==> !IsBreak(t[k])
    ensures ColumnBegin(t, j) == ColumnBegin(t, i)
    decreases j
  {
    if i < j { SameColumnBegin(t, i, j - 1); }
  }
}
