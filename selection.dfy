/**
  Keeping the present values of a sequence of optional results, in order: the
  shape shared by the row loop (`continue` on a bad row) and the currency loop
  (nothing appended for a currency without an opportunity).
 */
module Selection {
  import opened Wrappers

  function OptionToSeq<T>(o: Option<T>): (r: seq<T>)
    ensures |r| <= 1
  {
    match o
    case Some(x) => [x]
    case None => []
  }

  /** The values of the `Some` entries of `os`, in order. */
  function Somes<T>(os: seq<Option<T>>): seq<T>
  {
    if os == [] then [] else Somes(os[..|os| - 1]) + OptionToSeq(os[|os| - 1])
  }

  /**
    `idx` lists, in increasing order, exactly the positions of `os` that hold a
    value, and `ys[k]` is the value at position `idx[k]`.
   */
  ghost predicate Selects<T>(os: seq<Option<T>>, ys: seq<T>, idx: seq<nat>) {
    && |idx| == |ys|
    && (forall k :: 0 <= k < |idx| ==> idx[k] < |os| && os[idx[k]] == Some(ys[k]))
    && (forall k, l :: 0 <= k < l < |idx| ==> idx[k] < idx[l])
    && (forall i :: 0 <= i < |os| && os[i].Some? ==> i in idx)
  }

  lemma SelectsSkip<T>(os: seq<Option<T>>, ys: seq<T>, idx: seq<nat>)
    requires os != [] && os[|os| - 1].None?
    requires Selects(os[..|os| - 1], ys, idx)
    ensures Selects(os, ys, idx)
  {
    var n := |os| - 1;
    forall i | 0 <= i < |os| && os[i].Some? ensures i in idx {
      assert i < n;
      assert os[..n][i].Some?;
    }
  }

  lemma SelectsTake<T>(os: seq<Option<T>>, ys: seq<T>, idx: seq<nat>)
    requires os != [] && os[|os| - 1].Some?
    requires Selects(os[..|os| - 1], ys, idx)
    ensures Selects(os, ys + [os[|os| - 1].value], idx + [|os| - 1])
  {
    var n := |os| - 1;
    var idx', ys' := idx + [n], ys + [os[n].value];
    forall k | 0 <= k < |idx'| ensures idx'[k] < |os| && os[idx'[k]] == Some(ys'[k]) {
      if k < |idx| {
        assert idx'[k] == idx[k] && ys'[k] == ys[k];
        assert os[..n][idx[k]] == os[idx[k]];
      }
    }
    forall i | 0 <= i < |os| && os[i].Some? ensures i in idx' {
      if i < n {
        assert os[..n][i].Some?;
        assert i in idx;
      } else {
        assert idx'[|idx|] == i;
      }
    }
  }

  /** `Somes` keeps exactly the present values, each once, in their original order. */
  lemma {:induction false} SomesSelects<T>(os: seq<Option<T>>)
    ensures exists idx :: Selects(os, Somes(os), idx)
  {
    if os == [] {
      assert Somes(os) == [];
      assert Selects(os, [], []);
    } else {
      var init := os[..|os| - 1];
      SomesSelects(init);
      var idx :| Selects(init, Somes(init), idx);
      assert Somes(os) == Somes(init) + OptionToSeq(os[|os| - 1]);
      if os[|os| - 1].Some? {
        SelectsTake(os, Somes(init), idx);
        assert Somes(os) == Somes(init) + [os[|os| - 1].value];
      } else {
        SelectsSkip(os, Somes(init), idx);
        assert Somes(os) == Somes(init);
      }
    }
  }

  /** Selection distributes over concatenation. */
  lemma {:induction false} SomesAppend<T>(a: seq<Option<T>>, b: seq<Option<T>>)
    ensures Somes(a + b) == Somes(a) + Somes(b)
  {
    if b == [] {
      assert a + b == a;
    } else {
      var b' := b[..|b| - 1];
      assert (a + b)[..|a + b| - 1] == a + b';
      assert (a + b)[|a + b| - 1] == b[|b| - 1];
      SomesAppend(a, b');
    }
  }

  /** At most one value per position. */
  lemma {:induction false} SomesLength<T>(os: seq<Option<T>>)
    ensures |Somes(os)| <= |os|
  {
    if os != [] {
      SomesLength(os[..|os| - 1]);
    }
  }
}
