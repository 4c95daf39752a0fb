/**
 * The positions at which a sequence of flags holds `true`, in increasing order: the
 * elements a loop acts on when it skips the others.
 */
module Indexing {

  /** The positions holding `true`, in increasing order. */
  function Positions(flags: seq<bool>): seq<nat> {
    if flags == [] then []
    else
      var n := |flags| - 1;
      Positions(flags[..n]) + if flags[n] then [n] else []
  }

  /** The positions holding `true` are in range, strictly increasing, and all of them. */
  lemma {:induction false} PositionsShape(flags: seq<bool>)
    ensures var idx := Positions(flags);
      && (forall k :: 0 <= k < |idx| ==> idx[k] < |flags|)
      && (forall k, l :: 0 <= k < l < |idx| ==> idx[k] < idx[l])
      && (forall j :: 0 <= j < |flags| ==> (flags[j] <==> j in idx))
  {
    if flags != [] {
      var n := |flags| - 1;
      var init := flags[..n];
      var idx0, idx := Positions(init), Positions(flags);
      PositionsShape(init);
      assert idx == idx0 + if flags[n] then [n] else [];
      assert n !in idx0;
      forall j | 0 <= j < n ensures flags[j] <==> j in idx {
        assert init[j] == flags[j];
      }
    }
  }
}
