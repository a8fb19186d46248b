/** Small sequence utilities shared by the rest of the model: the first-match search
    that every `for ... if ...: ... break/return` loop of the bot performs, Python's
    `list.remove`, and the minimum of a non-empty list. */
module Common {

  datatype Option<T> = None | Some(value: T)

  /** Index of the first element of `s` that satisfies `p` (a linear scan that stops
      at the first hit), or None when no element does. */
  function FirstIndex<T>(s: seq<T>, p: T -> bool): (r: Option<nat>)
    ensures r.Some? ==> r.value < |s| && p(s[r.value])
    ensures r.Some? ==> forall j :: 0 <= j < r.value ==> !p(s[j])
    ensures r.None? <==> forall j :: 0 <= j < |s| ==> !p(s[j])
  {
    if |s| == 0 then None
    else if p(s[0]) then Some(0)
    else match FirstIndex(s[1..], p)
      case None => None
      case Some(i) => Some(i + 1)
  }

  /** A scan over `a + b` that finds nothing in `a` finds what the scan of `b` finds,
      shifted by `|a|`. */
  lemma {:induction false} FirstIndexAppend<T>(a: seq<T>, b: seq<T>, p: T -> bool)
    requires forall j :: 0 <= j < |a| ==> !p(a[j])
    ensures FirstIndex(a + b, p) == match FirstIndex(b, p) case None => None case Some(j) => Some(|a| + j)
  {
    if |a| > 0 {
      assert (a + b)[1..] == a[1..] + b;
      assert !p((a + b)[0]);
      FirstIndexAppend(a[1..], b, p);
    } else {
      assert a + b == b;
    }
  }

  /** Python's `list.remove(x)`: drops the first occurrence of `x`; the list must
      hold `x` (Python raises ValueError otherwise). */
  function RemoveFirst<T(==)>(s: seq<T>, x: T): (r: seq<T>)
    requires x in s
    ensures |r| == |s| - 1
    ensures multiset(r) == multiset(s) - multiset{x}
    ensures exists i :: 0 <= i < |s| && s[i] == x && x !in s[..i] && r == s[..i] + s[i + 1..]
  {
    var i := FirstIndex(s, (y: T) => y == x).value;
    assert s == s[..i] + [s[i]] + s[i + 1..];
    s[..i] + s[i + 1..]
  }

  /** Removing the element just appended to a list that did not hold it gives the
      list back. */
  lemma RemoveFirstAppended<T>(s: seq<T>, x: T)
    requires x !in s
    ensures RemoveFirst(s + [x], x) == s
  {
    FirstIndexAppend(s, [x], (y: T) => y == x);
    assert (s + [x])[..|s|] == s;
  }

  /** The smallest element of a non-empty sequence. */
  function SeqMin(s: seq<int>): (m: int)
    requires |s| > 0
    ensures m in s
    ensures forall x :: x in s ==> m <= x
  {
    if |s| == 1 then s[0]
    else
      var init := s[..|s| - 1];
      assert s == init + [s[|s| - 1]];
      var m := SeqMin(init);
      if s[|s| - 1] < m then s[|s| - 1] else m
  }

  /** The minimum of a sequence extended by one element. */
  lemma SeqMinSnoc(s: seq<int>, v: int)
    requires |s| > 0
    ensures SeqMin(s + [v]) == if v < SeqMin(s) then v else SeqMin(s)
  {
    assert (s + [v])[..|s|] == s;
  }
}
