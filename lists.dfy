/** `Array.prototype.filter` and `filter(...).length` over sequences, shared by
    the list screens and the services. */
module Lists {
  import opened Wrappers

  /** `s.filter(p)`: the elements that pass, in their order. */
  function Keep<T>(s: seq<T>, p: T -> bool): (r: seq<T>)
    ensures |r| <= |s|
    ensures forall i :: 0 <= i < |r| ==> p(r[i])
  {
    if s == [] then []
    else
      var n := |s| - 1;
      Keep(s[..n], p) + (if p(s[n]) then [s[n]] else [])
  }

  /** What `Keep` keeps: elements of `s` that pass, and every element of `s`
      that passes, as many times as it occurs in `s`. With `KeepAppend`,
      which keeps the order, this is all of `filter`. */
  lemma {:induction false} KeepMembers<T>(s: seq<T>, p: T -> bool)
    ensures forall i :: 0 <= i < |Keep(s, p)| ==> Keep(s, p)[i] in s && p(Keep(s, p)[i])
    ensures forall i :: 0 <= i < |s| && p(s[i]) ==> s[i] in Keep(s, p)
    ensures forall x :: multiset(Keep(s, p))[x] == if p(x) then multiset(s)[x] else 0
  {
    if s != [] {
      var n := |s| - 1;
      KeepMembers(s[..n], p);
      assert s == s[..n] + [s[n]];
      assert multiset(s) == multiset(s[..n]) + multiset{s[n]};
    }
  }

  /** `s.filter(p).length` */
  function Count<T>(s: seq<T>, p: T -> bool): nat {
    |Keep(s, p)|
  }

  /** Filtering a concatenation filters each part, so the kept elements
      stay in their order. */
  lemma {:induction false} KeepAppend<T>(a: seq<T>, b: seq<T>, p: T -> bool)
    ensures Keep(a + b, p) == Keep(a, p) + Keep(b, p)
    decreases |b|
  {
    if b == [] {
      assert a + b == a;
    } else {
      var n := |b| - 1;
      assert (a + b)[..|a + b| - 1] == a + b[..n];
      KeepAppend(a, b[..n], p);
    }
  }

  /** A single element is kept exactly when it passes. */
  lemma KeepOne<T>(x: T, p: T -> bool)
    ensures Keep([x], p) == if p(x) then [x] else []
  {
    assert [x][..0] == [];
  }

  /** A filter every element passes keeps the whole sequence, and one none
      passes keeps nothing. */
  lemma KeepAllOrNone<T>(s: seq<T>, p: T -> bool)
    ensures (forall i :: 0 <= i < |s| ==> p(s[i])) ==> Keep(s, p) == s
    ensures (forall i :: 0 <= i < |s| ==> !p(s[i])) ==> Keep(s, p) == []
  {
    if forall i :: 0 <= i < |s| ==> p(s[i]) {
      KeepAll(s, p);
    }
    if forall i :: 0 <= i < |s| ==> !p(s[i]) {
      KeepNone(s, p);
    }
  }

  lemma {:induction false} KeepAll<T>(s: seq<T>, p: T -> bool)
    requires forall i :: 0 <= i < |s| ==> p(s[i])
    ensures Keep(s, p) == s
  {
    if s != [] {
      var n := |s| - 1;
      var init := s[..n];
      forall i | 0 <= i < |init|
        ensures p(init[i])
      {
        assert init[i] == s[i];
      }
      KeepAll(init, p);
      assert p(s[n]);
      assert Keep(s, p) == init + [s[n]];
      assert init + [s[n]] == s;
    }
  }

  lemma {:induction false} KeepNone<T>(s: seq<T>, p: T -> bool)
    requires forall i :: 0 <= i < |s| ==> !p(s[i])
    ensures Keep(s, p) == []
  {
    if s != [] {
      var n := |s| - 1;
      var init := s[..n];
      forall i | 0 <= i < |init|
        ensures !p(init[i])
      {
        assert init[i] == s[i];
      }
      KeepNone(init, p);
      assert !p(s[n]);
    }
  }

  /** Filtering twice with the same test changes nothing more. */
  lemma {:induction false} KeepIdempotent<T>(s: seq<T>, p: T -> bool)
    ensures Keep(Keep(s, p), p) == Keep(s, p)
  {
    KeepAll(Keep(s, p), p);
  }

  /** Two tests that agree on every element keep the same elements. */
  lemma {:induction false} KeepAgree<T>(s: seq<T>, p: T -> bool, q: T -> bool)
    requires forall i :: 0 <= i < |s| ==> p(s[i]) == q(s[i])
    ensures Keep(s, p) == Keep(s, q)
  {
    if s != [] {
      var n := |s| - 1;
      KeepAgree(s[..n], p, q);
    }
  }

  /** Counting is additive over a concatenation. */
  lemma CountAppend<T>(a: seq<T>, b: seq<T>, p: T -> bool)
    ensures Count(a + b, p) == Count(a, p) + Count(b, p)
  {
    KeepAppend(a, b, p);
  }

  /** The test that both `p` and `q` pass. */
  function Both<T>(p: T -> bool, q: T -> bool): T -> bool {
    x => p(x) && q(x)
  }

  /** Two filters one after the other keep what passes both. */
  lemma {:induction false} KeepKeep<T>(s: seq<T>, p: T -> bool, q: T -> bool)
    ensures Keep(Keep(s, p), q) == Keep(s, Both(p, q))
  {
    if s != [] {
      var n := |s| - 1;
      KeepKeep(s[..n], p, q);
      KeepAppend(Keep(s[..n], p), if p(s[n]) then [s[n]] else [], q);
    }
  }

  /** `s.findIndex(p)`, with `None` for `-1`. */
  function FindIndex<T>(s: seq<T>, p: T -> bool): (r: Option<nat>)
    ensures r.Some? ==> r.value < |s| && p(s[r.value])
    ensures r.Some? ==> forall j :: 0 <= j < r.value ==> !p(s[j])
    ensures r.None? ==> forall j :: 0 <= j < |s| ==> !p(s[j])
  {
    if s == [] then None
    else if p(s[0]) then Some(0)
    else
      match FindIndex(s[1..], p)
      case None => None
      case Some(k) => Some(k + 1)
  }

  /** `s.find(p)`, with `None` for `undefined`. */
  function Find<T>(s: seq<T>, p: T -> bool): (r: Option<T>)
    ensures r.Some? <==> exists i :: 0 <= i < |s| && p(s[i])
    ensures r.Some? ==> r.value in s && p(r.value)
  {
    match FindIndex(s, p)
    case None => None
    case Some(k) => Some(s[k])
  }

  /** `find` returns the first element that passes. */
  lemma FindFirst<T>(s: seq<T>, p: T -> bool, i: nat)
    requires i < |s| && p(s[i])
    requires forall j :: 0 <= j < i ==> !p(s[j])
    ensures Find(s, p) == Some(s[i])
  {
    var k := FindIndex(s, p).value;
    assert !(k < i) && !(i < k);
  }
}
