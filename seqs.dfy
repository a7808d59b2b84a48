/** Facts about a sequence occurring at a given position of another, used to
    state what a cursor-driven stage finds at its cursor. */
module Seqs {

  /** `w` occurs in `ts` starting at position `i`. */
  ghost predicate IsAt<T>(ts: seq<T>, i: nat, w: seq<T>) {
    i + |w| <= |ts| && ts[i..i + |w|] == w
  }

  lemma IsAtElements<T>(ts: seq<T>, i: nat, w: seq<T>)
    requires IsAt(ts, i, w)
    ensures forall j :: 0 <= j < |w| ==> ts[i + j] == w[j]
  {
    forall j | 0 <= j < |w| ensures ts[i + j] == w[j] {
      assert ts[i..i + |w|][j] == ts[i + j];
    }
  }

  lemma IsAtSplit<T>(ts: seq<T>, i: nat, u: seq<T>, v: seq<T>)
    ensures IsAt(ts, i, u + v) <==> IsAt(ts, i, u) && IsAt(ts, i + |u|, v)
  {
    if IsAt(ts, i, u + v) {
      assert ts[i..i + |u|] == (u + v)[..|u|] == u;
      assert ts[i + |u|..i + |u| + |v|] == (u + v)[|u|..] == v;
    }
    if IsAt(ts, i, u) && IsAt(ts, i + |u|, v) {
      assert ts[i..i + |u| + |v|] == ts[i..i + |u|] + ts[i + |u|..i + |u| + |v|];
    }
  }
}
