/** Device labels in the order they are shown: letter case does not count. */
module Labels {
  import opened UStrings

  /** Lexicographic by character code. */
  predicate Lex(a: string, b: string) {
    a == "" || (b != "" && (a[0] < b[0] || (a[0] == b[0] && Lex(a[1..], b[1..]))))
  }

  predicate Leq(a: string, b: string) { Lex(Lower(a), Lower(b)) }

  /**
   * In words: one text is a beginning of the other, or at the first place where they differ its
   * character comes first.
   */
  lemma {:induction false} LexIff(a: string, b: string)
    ensures Lex(a, b) <==> exists k :: LexAt(a, b, k)
  {
    if a == "" {
      assert LexAt(a, b, 0);
    } else if b == "" || a[0] != b[0] {
      assert b != "" && a[0] < b[0] ==> LexAt(a, b, 0);
      forall k
        ensures LexAt(a, b, k) && k > 0 ==> b != "" && a[0] == b[0]
      {
        SharesFirst(a, b, k);
      }
    } else {
      LexIff(a[1..], b[1..]);
      forall k: int
        ensures k > 0 ==> (LexAt(a, b, k) <==> LexAt(a[1..], b[1..], k - 1))
      {
        if 0 < k <= |a| && k <= |b| {
          assert a[..k] == [a[0]] + a[1..][..k - 1] && b[..k] == [b[0]] + b[1..][..k - 1];
        }
      }
      assert !LexAt(a, b, 0);
      if Lex(a, b) {
        var k :| LexAt(a[1..], b[1..], k);
        assert LexAt(a, b, k + 1);
      }
    }
  }

  lemma SharesFirst(a: string, b: string, k: int)
    ensures LexAt(a, b, k) && k > 0 ==> b != "" && a[0] == b[0]
  {
    if LexAt(a, b, k) && k > 0 {
      assert a[..k][0] == a[0] && b[..k][0] == b[0];
    }
  }

  predicate LexAt(a: string, b: string, k: int) {
    0 <= k <= |a| && k <= |b| && a[..k] == b[..k] && (k == |a| || (k < |b| && a[k] < b[k]))
  }

  lemma {:induction false} LexTotal(a: string, b: string)
    ensures Lex(a, b) || Lex(b, a)
  {
    if a != "" && b != "" && a[0] == b[0] {
      LexTotal(a[1..], b[1..]);
    }
  }

  lemma {:induction false} LexTransitive(a: string, b: string, c: string)
    requires Lex(a, b) && Lex(b, c)
    ensures Lex(a, c)
  {
    if a != "" && a[0] == b[0] == c[0] {
      LexTransitive(a[1..], b[1..], c[1..]);
    }
  }

  predicate Sorted(s: seq<string>) { forall i, j :: 0 <= i < j < |s| ==> Leq(s[i], s[j]) }

  function Insert(s: seq<string>, x: string): seq<string> {
    if s == [] || Leq(x, s[0]) then [x] + s else [s[0]] + Insert(s[1..], x)
  }

  lemma {:induction false} InsertKeepsSorted(s: seq<string>, x: string)
    requires Sorted(s)
    ensures Sorted(Insert(s, x)) && multiset(Insert(s, x)) == multiset(s) + multiset{x}
  {
    hide Leq;
    if s == [] {
    } else if Leq(x, s[0]) {
      assert [x] + s == Insert(s, x);
      forall j | 0 <= j < |s|
        ensures Leq(x, s[j])
      {
        if j > 0 { LeqTransitive(x, s[0], s[j]); }
      }
    } else {
      LeqTotal(x, s[0]);
      InsertKeepsSorted(s[1..], x);
      var rest := Insert(s[1..], x);
      assert s == [s[0]] + s[1..];
      forall j | 0 <= j < |rest|
        ensures Leq(s[0], rest[j])
      {
        assert rest[j] in multiset(rest);
        assert rest[j] in s[1..] || rest[j] == x;
      }
    }
  }

  lemma LeqTotal(a: string, b: string)
    ensures Leq(a, b) || Leq(b, a)
  {
    LexTotal(Lower(a), Lower(b));
  }

  lemma LeqTransitive(a: string, b: string, c: string)
    requires Leq(a, b) && Leq(b, c)
    ensures Leq(a, c)
  {
    LexTransitive(Lower(a), Lower(b), Lower(c));
  }

  /** The labels of a set, sorted, each once. */
  method SortedKeys(keys: set<string>) returns (s: seq<string>)
    ensures Sorted(s) && multiset(s) == multiset(keys)
  {
    hide Leq, Insert;
    s := [];
    var todo := keys;
    while todo != {}
      invariant todo <= keys && Sorted(s) && multiset(s) == multiset(keys - todo)
      decreases |todo|
    {
      var x :| x in todo;
      InsertKeepsSorted(s, x);
      s := Insert(s, x);
      todo := todo - {x};
      assert multiset(keys - todo) == multiset(keys - todo - {x}) + multiset{x};
    }
    assert keys - todo == keys;
  }
}
