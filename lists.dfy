/** The array idioms of the CLI: `[...new Set(xs)]` and `xs.filter(x => !ys.includes(x))`. */
module Lists {

  predicate NoDup<T(==)>(s: seq<T>) {
    forall i, j :: 0 <= i < j < |s| ==> s[i] != s[j]
  }

  /** `[...new Set(s)]`: a Set remembers insertion order and ignores an element it already
      holds, so the result lists the first occurrence of every element of `s`, in order. */
  function Dedupe<T(==)>(s: seq<T>): (r: seq<T>)
    ensures forall i :: 0 <= i < |r| ==> r[i] in s
    ensures forall i :: 0 <= i < |s| ==> s[i] in r
    ensures NoDup(r)
    decreases |s|
  {
    if |s| == 0 then []
    else
      var d := Dedupe(s[..|s| - 1]);
      if s[|s| - 1] in s[..|s| - 1] then d else d + [s[|s| - 1]]
  }

  /** Dedupe keeps exactly the elements of the list. */
  lemma DedupeMembers<T>(s: seq<T>)
    ensures forall x :: x in Dedupe(s) <==> x in s
  {
    forall x | x in s ensures x in Dedupe(s) {
      var i :| 0 <= i < |s| && s[i] == x;
    }
  }

  /** A list without duplicates is its own dedupe. */
  lemma {:induction false} DedupeOfNoDup<T>(s: seq<T>)
    requires NoDup(s)
    ensures Dedupe(s) == s
    decreases |s|
  {
    if |s| > 0 {
      var init := s[..|s| - 1];
      assert NoDup(init);
      DedupeOfNoDup(init);
      assert s[|s| - 1] !in init;
      assert s == init + [s[|s| - 1]];
    }
  }

  lemma DedupeIdempotent<T>(s: seq<T>)
    ensures Dedupe(Dedupe(s)) == Dedupe(s)
  {
    DedupeOfNoDup(Dedupe(s));
  }

  /** First-occurrence order: deduping a prefix gives a prefix of the dedupe of the whole. */
  lemma {:induction false} DedupePrefix<T>(s: seq<T>, k: nat)
    requires k <= |s|
    ensures |Dedupe(s[..k])| <= |Dedupe(s)|
    ensures Dedupe(s[..k]) == Dedupe(s)[..|Dedupe(s[..k])|]
    decreases |s|
  {
    if k < |s| {
      var init := s[..|s| - 1];
      assert init[..k] == s[..k];
      DedupePrefix(init, k);
      var d, m := Dedupe(init), |Dedupe(s[..k])|;
      assert Dedupe(s) == d || Dedupe(s) == d + [s[|s| - 1]];
      assert Dedupe(s)[..|d|] == d;
      assert Dedupe(s)[..m] == d[..m];
    } else {
      assert s[..k] == s;
    }
  }

  /** Dedupe of a list extended by one element. */
  lemma DedupeSnoc<T>(s: seq<T>, x: T)
    ensures Dedupe(s + [x]) == if x in s then Dedupe(s) else Dedupe(s) + [x]
  {
    assert (s + [x])[..|s|] == s;
  }

  /** `s.filter(x => !excluded.includes(x))` */
  function Without<T(==)>(s: seq<T>, excluded: seq<T>): (r: seq<T>)
    ensures forall i :: 0 <= i < |r| ==> r[i] in s && r[i] !in excluded
    ensures forall i :: 0 <= i < |s| && s[i] !in excluded ==> s[i] in r
    ensures NoDup(s) ==> NoDup(r)
    ensures |r| <= |s|
    decreases |s|
  {
    if |s| == 0 then []
    else if s[0] in excluded then Without(s[1..], excluded)
    else
      var rest := Without(s[1..], excluded);
      assert NoDup(s) ==> s[0] !in s[1..];
      [s[0]] + rest
  }

  /** The position of the first occurrence of `x` in `s`. */
  function IndexOf<T(==)>(s: seq<T>, x: T): (r: nat)
    requires x in s
    ensures r < |s| && s[r] == x
    ensures forall j :: 0 <= j < r ==> s[j] != x
    decreases |s|
  {
    if s[0] == x then 0 else 1 + IndexOf(s[1..], x)
  }

  /** An element of the list without its last element has the same first position. */
  lemma IndexOfInit<T>(s: seq<T>, x: T)
    requires |s| > 0 && x in s[..|s| - 1]
    ensures IndexOf(s, x) == IndexOf(s[..|s| - 1], x)
  {
    assert forall k :: 0 <= k < |s| - 1 ==> s[..|s| - 1][k] == s[k];
  }

  /** The dedupe lists the elements in the order of their first occurrences. */
  lemma {:induction false} DedupeOrder<T>(s: seq<T>)
    ensures forall i, j :: 0 <= i < j < |Dedupe(s)| ==> IndexOf(s, Dedupe(s)[i]) < IndexOf(s, Dedupe(s)[j])
    decreases |s|
  {
    if |s| > 0 {
      var init, x := s[..|s| - 1], s[|s| - 1];
      DedupeOrder(init);
      var d := Dedupe(init);
      forall y | y in d ensures IndexOf(s, y) == IndexOf(init, y) {
        IndexOfInit(s, y);
      }
      if x !in init {
        assert Dedupe(s) == d + [x];
        assert forall j :: 0 <= j < |init| ==> s[j] == init[j];
        assert IndexOf(s, x) == |init|;
      }
    }
  }

  /** The filter distributes over concatenation ... */
  lemma {:induction false} WithoutAppend<T>(a: seq<T>, b: seq<T>, excluded: seq<T>)
    ensures Without(a + b, excluded) == Without(a, excluded) + Without(b, excluded)
    decreases |a|
  {
    if |a| > 0 {
      assert (a + b)[1..] == a[1..] + b;
      WithoutAppend(a[1..], b, excluded);
    } else {
      assert a + b == b;
    }
  }

  /** ... and keeps a single element exactly when it is not excluded, so it keeps the
      surviving elements in their order and with their multiplicity. */
  lemma WithoutSingleton<T>(x: T, excluded: seq<T>)
    ensures Without([x], excluded) == if x in excluded then [] else [x]
  {
    assert [x][1..] == [];
  }

  /** Past a different head, the first position is one more than in the tail. */
  lemma IndexOfTail<T>(s: seq<T>, y: T)
    requires |s| > 0 && y in s[1..] && s[0] != y
    ensures IndexOf(s, y) == 1 + IndexOf(s[1..], y)
  {
  }

  /** On a list without duplicates the survivors keep their relative order. */
  lemma {:induction false} WithoutOrder<T>(s: seq<T>, excluded: seq<T>)
    requires NoDup(s)
    ensures forall i, j :: 0 <= i < j < |Without(s, excluded)| ==>
      IndexOf(s, Without(s, excluded)[i]) < IndexOf(s, Without(s, excluded)[j])
    decreases |s|
  {
    if |s| > 0 {
      var t := s[1..];
      assert NoDup(t) && s[0] !in t;
      WithoutOrder(t, excluded);
      var r, rest := Without(s, excluded), Without(t, excluded);
      if s[0] in excluded {
        assert r == rest;
        forall i, j | 0 <= i < j < |r| ensures IndexOf(s, r[i]) < IndexOf(s, r[j]) {
          IndexOfTail(s, r[i]);
          IndexOfTail(s, r[j]);
        }
      } else {
        assert r == [s[0]] + rest;
        forall i, j | 0 <= i < j < |r| ensures IndexOf(s, r[i]) < IndexOf(s, r[j]) {
          assert r[j] == rest[j - 1];
          IndexOfTail(s, r[j]);
          if i > 0 {
            assert r[i] == rest[i - 1];
            IndexOfTail(s, r[i]);
          }
        }
      }
    }
  }
}
