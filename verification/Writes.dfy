/** Sequences of whole-block disk writes and what they leave on the disk. */
module Writes {

  /** A disk block, as a sequence of words. */
  type Block = seq<int>
  type Disk = seq<Block>
  type Write = (nat, Block)

  function Apply(d: Disk, ws: seq<Write>): (r: Disk)
    ensures |r| == |d|
  {
    if |ws| == 0 then d
    else
      var m := |ws| - 1;
      var e := Apply(d, ws[..m]);
      if ws[m].0 < |d| then e[ws[m].0 := ws[m].1] else e
  }

  lemma {:induction false} ApplyAppend(d: Disk, xs: seq<Write>, ys: seq<Write>)
    ensures Apply(d, xs + ys) == Apply(Apply(d, xs), ys)
  {
    if |ys| == 0 {
      assert xs + ys == xs;
    } else {
      var m := |ys| - 1;
      ApplyAppend(d, xs, ys[..m]);
      assert (xs + ys)[..|xs| + m] == xs + ys[..m];
    }
  }

  /** A block that no write names keeps its contents; the last write to a block wins. */
  lemma {:induction false} ApplyOther(d: Disk, ws: seq<Write>, b: nat)
    requires b < |d| && forall i :: 0 <= i < |ws| ==> ws[i].0 != b
    ensures Apply(d, ws)[b] == d[b]
  {
    if |ws| > 0 {
      ApplyOther(d, ws[..|ws| - 1], b);
    }
  }

  lemma {:induction false} ApplyHit(d: Disk, ws: seq<Write>, i: nat)
    requires i < |ws| && ws[i].0 < |d|
    requires forall j :: i < j < |ws| ==> ws[j].0 != ws[i].0
    ensures Apply(d, ws)[ws[i].0] == ws[i].1
  {
    var m := |ws| - 1;
    if i < m {
      ApplyHit(d, ws[..m], i);
    }
  }

  /** The trace `tr` is `tr0` followed by the first `k` writes of `ws`. */
  ghost predicate Wrote(tr0: seq<Write>, tr: seq<Write>, ws: seq<Write>, k: nat) {
    && k <= |ws| && |tr| == |tr0| + k
    && (forall i :: 0 <= i < |tr0| ==> tr[i] == tr0[i])
    && (forall i :: 0 <= i < k ==> tr[|tr0| + i] == ws[i])
  }

  lemma WroteNone(tr: seq<Write>, ws: seq<Write>)
    ensures Wrote(tr, tr, ws, 0)
  {
  }

  lemma WroteOne(tr0: seq<Write>, tr: seq<Write>, ws: seq<Write>, k: nat)
    requires Wrote(tr0, tr, ws, k) && k < |ws|
    ensures Wrote(tr0, tr + [ws[k]], ws, k + 1)
  {
  }

  lemma WroteAll(d: Disk, tr0: seq<Write>, tr: seq<Write>, ws: seq<Write>, k: nat)
    requires Wrote(tr0, tr, ws, k)
    ensures tr == tr0 + ws[..k]
    ensures Apply(d, tr) == Apply(Apply(d, tr0), ws[..k])
  {
    assert tr == tr0 + ws[..k];
    ApplyAppend(d, tr0, ws[..k]);
  }

  /** Wrote composes over the concatenation of two lists of writes. */
  lemma WroteThen(tr0: seq<Write>, tr1: seq<Write>, tr2: seq<Write>, first: seq<Write>, rest: seq<Write>, k: nat)
    requires Wrote(tr0, tr1, first, |first|) && Wrote(tr1, tr2, rest, k)
    ensures Wrote(tr0, tr2, first + rest, |first| + k)
  {
    forall i | 0 <= i < |first| + k ensures tr2[|tr0| + i] == (first + rest)[i] {
      if i < |first| {
        assert tr2[|tr0| + i] == tr1[|tr0| + i];
      } else {
        assert tr2[|tr1| + (i - |first|)] == rest[i - |first|];
      }
    }
  }

  lemma WroteFirst(tr0: seq<Write>, tr: seq<Write>, first: seq<Write>, rest: seq<Write>, k: nat)
    requires Wrote(tr0, tr, first, k)
    ensures Wrote(tr0, tr, first + rest, k)
  {
  }
}
