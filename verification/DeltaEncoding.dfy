/** The LSP `SemanticTokens.data` form and its inverse (rs/src/semantic.rs, `encode`; the integer
    encoding of `SemanticTokens` in the Language Server Protocol 3.17). */
module DeltaEncoding {
  import opened Semantic

  /** One semantic token. */
  datatype SemanticToken = SemanticToken(row: nat, col: nat, len: nat, colChars: nat, lenChars: nat, kind: nat)

  /** What the wire carries of a token. */
  datatype Wire = Wire(row: nat, col: nat, len: nat, kind: nat, modifiers: nat)

  const U32_LIMIT := 0x1_0000_0000

  function TokenOf(s: Segment): SemanticToken {
    SemanticToken(s.row, s.col, s.len, s.colChars, s.lenChars, s.kind)
  }

  /** As the client reads it: without modifiers. */
  function WireOf(t: SemanticToken): Wire {
    Wire(t.row, t.col, t.len, t.kind, 0)
  }

  predicate StepsBack(row: nat, col: nat, t: SemanticToken) {
    t.row < row || (t.row == row && t.col < col)
  }

  function DeltaCol(row: nat, col: nat, t: SemanticToken): nat
    requires !StepsBack(row, col, t)
  {
    if t.row == row then t.col - col else t.col
  }

  /** A token the wire can carry after one at `(row, col)`. */
  predicate Carried(row: nat, col: nat, t: SemanticToken) {
    && t.len >= 1 && !StepsBack(row, col, t)
    && t.row - row < U32_LIMIT && DeltaCol(row, col, t) < U32_LIMIT && t.len < U32_LIMIT
  }

  /** The greedy subsequence: each token in turn, if the wire can carry it after the last one
      taken. */
  function Taken(row: nat, col: nat, ts: seq<SemanticToken>): seq<SemanticToken>
    decreases |ts|
  {
    if ts == [] then []
    else if Carried(row, col, ts[0]) then [ts[0]] + Taken(ts[0].row, ts[0].col, ts[1..])
    else Taken(row, col, ts[1..])
  }

  /** A client's reading of the data from `(row, col)` on: the deltas summed up. */
  function Decoded(row: nat, col: nat, data: seq<nat>): seq<Wire>
    decreases |data|
  {
    if |data| < 5 then []
    else
      var r := row + data[0];
      var c := if data[0] == 0 then col + data[1] else data[1];
      [Wire(r, c, data[2], data[3], data[4])] + Decoded(r, c, data[5..])
  }

  function Wires(ts: seq<SemanticToken>): seq<Wire> {
    if ts == [] then [] else [WireOf(ts[0])] + Wires(ts[1..])
  }

  lemma {:induction false} DecodedCons(row: nat, col: nat, t: SemanticToken, rest: seq<nat>)
    requires !StepsBack(row, col, t)
    ensures Decoded(row, col, [t.row - row, DeltaCol(row, col, t), t.len, t.kind, 0] + rest)
      == [WireOf(t)] + Decoded(t.row, t.col, rest)
  {
    var data := [t.row - row, DeltaCol(row, col, t), t.len, t.kind, 0] + rest;
    assert data[5..] == rest;
  }

  lemma {:induction false} DecodedStep(row: nat, col: nat, data: seq<nat>, more: seq<nat>)
    requires |data| >= 5
    ensures var r, c := row + data[0], if data[0] == 0 then col + data[1] else data[1];
      && Decoded(row, col, data) == [Wire(r, c, data[2], data[3], data[4])] + Decoded(r, c, data[5..])
      && Decoded(row, col, data + more) == [Wire(r, c, data[2], data[3], data[4])] + Decoded(r, c, data[5..] + more)
  {
    assert (data + more)[5..] == data[5..] + more;
  }

  /** Decoding from `(row, col)` what follows is unaffected by what came before. */
  lemma {:induction false} DecodedJoin(row: nat, col: nat, data: seq<nat>, row': nat, col': nat, more: seq<nat>)
    requires |data| % 5 == 0 && EndsAt(row, col, data) == (row', col')
    ensures Decoded(row, col, data + more) == Decoded(row, col, data) + Decoded(row', col', more)
    decreases |data|
  {
    if |data| < 5 {
      assert data + more == more;
    } else {
      var r := row + data[0];
      var c := if data[0] == 0 then col + data[1] else data[1];
      DecodedStep(row, col, data, more);
      DecodedJoin(r, c, data[5..], row', col', more);
    }
  }

  /** Where the last token of the data stands. */
  function EndsAt(row: nat, col: nat, data: seq<nat>): (nat, nat)
    decreases |data|
  {
    if |data| < 5 then (row, col)
    else EndsAt(row + data[0], if data[0] == 0 then col + data[1] else data[1], data[5..])
  }

  lemma {:induction false} EndsAtJoin(row: nat, col: nat, data: seq<nat>, more: seq<nat>)
    requires |data| % 5 == 0
    ensures EndsAt(row, col, data + more) == EndsAt(EndsAt(row, col, data).0, EndsAt(row, col, data).1, more)
    decreases |data|
  {
    if |data| < 5 {
      assert data + more == more;
    } else {
      assert (data + more)[5..] == data[5..] + more;
      EndsAtJoin(row + data[0], if data[0] == 0 then col + data[1] else data[1], data[5..], more);
    }
  }

  /** `encode`: what a client decodes from the data is exactly the greedy subsequence of the
      tokens. */
  method Encode(ts: seq<SemanticToken>) returns (data: seq<nat>)
    ensures |data| % 5 == 0
    ensures Decoded(0, 0, data) == Wires(Taken(0, 0, ts))
    ensures forall i :: 0 <= i < |data| && i % 5 < 3 ==> data[i] < 0x1_0000_0000
  {
    data := [];
    var prevRow, prevCol := 0, 0;
    assert ts[0..] == ts;
    for n := 0 to |ts|
      invariant |data| % 5 == 0 && EndsAt(0, 0, data) == (prevRow, prevCol)
      invariant Decoded(0, 0, data) + Wires(Taken(prevRow, prevCol, ts[n..])) == Wires(Taken(0, 0, ts))
      invariant forall i :: 0 <= i < |data| && i % 5 < 3 ==> data[i] < U32_LIMIT
    {
      var t := ts[n];
      assert ts[n..][1..] == ts[n + 1..];
      if t.len < 1 || t.row < prevRow || (t.row == prevRow && t.col < prevCol) {
        continue;
      }
      var dRow := t.row - prevRow;
      var dCol := if dRow == 0 then t.col - prevCol else t.col;
      if dRow >= U32_LIMIT || dCol >= U32_LIMIT || t.len >= U32_LIMIT {
        continue;
      }
      TakeStep(prevRow, prevCol, t, ts[n + 1..], data);
      data := data + [dRow, dCol, t.len, t.kind, 0];
      prevRow, prevCol := t.row, t.col;
    }
  }

  lemma {:induction false} TakeStep(row: nat, col: nat, t: SemanticToken, rest: seq<SemanticToken>, data: seq<nat>)
    requires |data| % 5 == 0 && EndsAt(0, 0, data) == (row, col) && Carried(row, col, t)
    ensures var more := data + [t.row - row, DeltaCol(row, col, t), t.len, t.kind, 0];
      && EndsAt(0, 0, more) == (t.row, t.col)
      && Decoded(0, 0, more) + Wires(Taken(t.row, t.col, rest))
        == Decoded(0, 0, data) + Wires(Taken(row, col, [t] + rest))
  {
    var d := [t.row - row, DeltaCol(row, col, t), t.len, t.kind, 0];
    EndsAtJoin(0, 0, data, d);
    DecodedJoin(0, 0, data, row, col, d);
    DecodedCons(row, col, t, []);
    assert d + [] == d;
    assert ([t] + rest)[1..] == rest;
    var taken := Taken(t.row, t.col, rest);
    assert ([t] + taken)[1..] == taken;
  }

  /** Non-empty tokens, none stepping back, all within the wire's integers. */
  ghost predicate AllCarried(row: nat, col: nat, ts: seq<SemanticToken>)
    decreases |ts|
  {
    ts != [] ==> Carried(row, col, ts[0]) && AllCarried(ts[0].row, ts[0].col, ts[1..])
  }

  /** Token `i` can follow the one listed before it, or the start: it is not empty, it does not
      stand before it, and its deltas and its length are below 2 to the 32nd. */
  predicate CanFollow(ts: seq<SemanticToken>, i: nat, row: nat, col: nat)
    requires i < |ts|
  {
    var r, c := if i == 0 then row else ts[i - 1].row, if i == 0 then col else ts[i - 1].col;
    && 1 <= ts[i].len < 0x1_0000_0000
    && (r < ts[i].row < r + 0x1_0000_0000 || r == ts[i].row)
    && (r == ts[i].row ==> c <= ts[i].col < c + 0x1_0000_0000)
    && (r < ts[i].row ==> ts[i].col < 0x1_0000_0000)
  }

  lemma {:induction false} CarriedInTurn(row: nat, col: nat, ts: seq<SemanticToken>)
    ensures AllCarried(row, col, ts) <==> forall i :: 0 <= i < |ts| ==> CanFollow(ts, i, row, col)
    decreases |ts|
  {
    if ts != [] {
      var t, rest := ts[0], ts[1..];
      CarriedInTurn(t.row, t.col, rest);
      assert CanFollow(ts, 0, row, col) <==> Carried(row, col, t);
      forall i | 0 <= i < |rest| ensures CanFollow(rest, i, t.row, t.col) <==> CanFollow(ts, i + 1, row, col) {
        assert rest[i] == ts[i + 1] && (i > 0 ==> rest[i - 1] == ts[i]);
      }
      if forall i :: 0 <= i < |rest| ==> CanFollow(rest, i, t.row, t.col) {
        forall i | 0 < i < |ts| ensures CanFollow(ts, i, row, col) {
          assert CanFollow(rest, i - 1, t.row, t.col);
        }
      }
      if forall i :: 0 <= i < |ts| ==> CanFollow(ts, i, row, col) {
        forall i | 0 <= i < |rest| ensures CanFollow(rest, i, t.row, t.col) {
          assert CanFollow(ts, i + 1, row, col);
        }
      }
    }
  }

  lemma {:induction false} TakenIfCarried(row: nat, col: nat, ts: seq<SemanticToken>)
    ensures |Taken(row, col, ts)| <= |ts|
    ensures Taken(row, col, ts) == ts <==> AllCarried(row, col, ts)
    decreases |ts|
  {
    if ts != [] {
      TakenIfCarried(ts[0].row, ts[0].col, ts[1..]);
      TakenIfCarried(row, col, ts[1..]);
      assert ts == [ts[0]] + ts[1..];
      if Carried(row, col, ts[0]) {
        assert Taken(row, col, ts)[1..] == Taken(ts[0].row, ts[0].col, ts[1..]);
      }
    }
  }

  /** The greedy subsequence drops nothing exactly when every token can follow the one before. */
  lemma {:induction false} TakenIsAll(row: nat, col: nat, ts: seq<SemanticToken>)
    ensures Taken(row, col, ts) == ts <==> forall i :: 0 <= i < |ts| ==> CanFollow(ts, i, row, col)
  {
    TakenIfCarried(row, col, ts);
    CarriedInTurn(row, col, ts);
  }

  /** A segment that passes is the first thing the guard adds. */
  lemma {:induction false} PassedFirst(g: Guard, ss: seq<Segment>)
    requires ss != [] && Passes(g.row, g.col, ss[0])
    ensures var out, n := After(g, ss).out, |g.out|;
      n < |out| && out[n..] == [ss[0]] + out[n + 1..] && Tokens(out[n..]) == [TokenOf(ss[0])] + Tokens(out[n + 1..])
  {
    var h, out := Step(g, ss[0]), After(g, ss).out;
    EmittedSuffix(h, ss[1..]);
    assert out[|g.out|] == out[..|h.out|][|g.out|] == ss[0];
    assert ([ss[0]] + out[|g.out| + 1..])[1..] == out[|g.out| + 1..];
  }

  /** The encoder's guard is the emitter's: of any segments that fit the wire it takes what the
      emitter would have let through. */
  lemma {:induction false} GuardsAgree(g: Guard, ss: seq<Segment>)
    requires forall s :: s in ss ==> Fits(s)
    ensures |g.out| <= |After(g, ss).out|
    ensures Taken(g.row, g.col, Tokens(ss)) == Tokens(After(g, ss).out[|g.out|..])
    decreases |ss|
  {
    if ss != [] {
      assert Fits(ss[0]);
      if Passes(g.row, g.col, ss[0]) {
        var h := Step(g, ss[0]);
        GuardsAgree(h, ss[1..]);
        PassedFirst(g, ss);
      } else {
        GuardsAgree(g, ss[1..]);
      }
      assert Tokens(ss)[1..] == Tokens(ss[1..]);
    }
  }

  predicate Fits(s: Segment) {
    s.row < 0x1_0000_0000 && s.col < 0x1_0000_0000 && s.len < 0x1_0000_0000
  }

  function Tokens(ss: seq<Segment>): (r: seq<SemanticToken>)
    ensures |r| == |ss|
  {
    if ss == [] then [] else [TokenOf(ss[0])] + Tokens(ss[1..])
  }

  /** What the emitter let through, from a guard on. */
  lemma {:induction false} EmittedSuffix(g: Guard, ss: seq<Segment>)
    ensures |g.out| <= |After(g, ss).out| && After(g, ss).out[..|g.out|] == g.out
    ensures (forall s :: s in After(g, ss).out ==> Fits(s)) ==>
      AllCarried(g.row, g.col, Tokens(After(g, ss).out[|g.out|..]))
    decreases |ss|
  {
    if ss != [] {
      var g' := Step(g, ss[0]);
      EmittedSuffix(g', ss[1..]);
      var out := After(g, ss).out;
      if g' != g && (forall s :: s in out ==> Fits(s)) {
        assert out[|g.out|] == out[..|g'.out|][|g.out|] == ss[0];
        assert out[|g.out|] in out;
        assert out[|g.out|..][1..] == out[|g'.out|..];
        assert out[..|g.out|] == out[..|g'.out|][..|g.out|];
      }
    }
  }

  /** Every segment the emitter lets through reaches the client: for values that fit the wire,
      the encoder's own guard drops none of them. */
  lemma {:induction false} EverySegmentArrives(ss: seq<Segment>)
    requires forall s :: s in After(START, ss).out ==> Fits(s)
    ensures Taken(0, 0, Tokens(After(START, ss).out)) == Tokens(After(START, ss).out)
  {
    EmittedSuffix(START, ss);
    var out := After(START, ss).out;
    assert out[0..] == out;
    TakenIfCarried(0, 0, Tokens(out));
  }
}
