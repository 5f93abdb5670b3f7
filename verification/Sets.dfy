/** Small facts about finite sets. */
module Sets {

  method Choose<T>(s: set<T>) returns (x: T)
    requires s != {}
    ensures x in s
  {
    x :| x in s;
  }

  lemma Pick<T>(s: set<T>) returns (x: T)
    requires s != {}
    ensures x in s
  {
    x :| x in s;
  }

  lemma SubsetSize<T>(a: set<T>, b: set<T>)
    requires a <= b
    ensures |a| <= |b|
  {
    assert b == a + (b - a);
    assert |b| == |a| + |b - a|;
  }

  lemma {:induction false} Largest(s: set<int>) returns (m: int)
    requires s != {}
    ensures m in s && forall i :: i in s ==> i <= m
  {
    m := Pick(s);
    if s != {m} {
      var k := Largest(s - {m});
      assert forall i :: i in s ==> i == m || i in s - {m};
      m := if k > m then k else m;
    }
  }

  lemma CountNext<T>(s: set<T>, t: set<T>, x: T, added: bool)
    requires forall y :: y in t <==> y in s || (y == x && added)
    requires x !in s
    ensures |t| == |s| + if added then 1 else 0
  {
    if added {
      assert t == s + {x};
    } else {
      assert t == s;
    }
  }
}
