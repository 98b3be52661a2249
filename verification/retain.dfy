/**
 In-place filtering of a collection, as the game does it for balls and blocks:
 keep the elements a predicate accepts, in their original order.
 */
module Seqs {

  function Retain<T(!new)>(s: seq<T>, keep: T -> bool): (r: seq<T>)
    ensures |r| <= |s|
    ensures forall x :: x in r <==> x in s && keep(x)
  {
    if |s| == 0 then []
    else (if keep(s[0]) then [s[0]] else []) + Retain(s[1..], keep)
  }

  /** Retaining distributes over concatenation, which is to say it keeps the survivors in their original order. */
  lemma {:induction false} RetainAppend<T(!new)>(s: seq<T>, t: seq<T>, keep: T -> bool)
    ensures Retain(s + t, keep) == Retain(s, keep) + Retain(t, keep)
  {
    if |s| == 0 {
      assert s + t == t;
    } else {
      assert (s + t)[0] == s[0];
      assert (s + t)[1..] == s[1..] + t;
      RetainAppend(s[1..], t, keep);
    }
  }
}
