/** The `k` smallest members of a set of strings, in Python's order of strings, and the law that makes a capped
    merge independent of order: the smallest of a union are the smallest of the parts' smallest. */
module SmallestIds {
  import opened Sorting

  function Below(s: set<string>, x: string): set<string> {
    set y | y in s && Less(y, x)
  }

  function Smallest(k: nat, s: set<string>): set<string> {
    set x | x in s && |Below(s, x)| < k
  }

  /** A nonempty set has a greatest member. */
  lemma {:induction false} Greatest(s: set<string>) returns (m: string)
    requires s != {}
    ensures m in s && forall x | x in s :: x == m || Less(x, m)
    decreases |s|
  {
    m :| m in s;
    var rest := s - {m};
    if rest != {} {
      var n := Greatest(rest);
      LessIsStrict(m, n);
      if Less(m, n) {
        m := n;
      } else {
        forall x | x in s ensures x == m || Less(x, m) {
          if x != m && x != n {
            LessIsTransitive(x, n, m);
          }
        }
      }
    }
  }

  lemma {:induction false} SmallestCount(k: nat, s: set<string>)
    ensures |Smallest(k, s)| == if |s| < k then |s| else k
    decreases |s|
  {
    if s == {} {
      assert Smallest(k, s) == {};
    } else {
      var m := Greatest(s);
      var rest := s - {m};
      SmallestCount(k, rest);
      forall x | x in rest ensures Below(s, x) == Below(rest, x) {
        LessIsStrict(x, m);
      }
      LessIsStrict(m, m);
      assert Below(s, m) == rest;
      if |rest| < k {
        assert Smallest(k, s) == Smallest(k, rest) + {m};
      } else {
        assert Smallest(k, s) == Smallest(k, rest);
      }
    }
  }

  lemma FewerBelowMeansLess(s: set<string>, x: string, y: string)
    requires |Below(s, y)| < |Below(s, x)|
    ensures Less(y, x)
  {
    LessIsStrict(x, y);
    if !Less(y, x) {
      forall z | z in Below(s, x) ensures z in Below(s, y) {
        if x != y {
          LessIsTransitive(z, x, y);
        }
      }
      SubsetsAreSmaller(Below(s, x), Below(s, y));
    }
  }

  lemma SmallestSurviveInParts(k: nat, a: set<string>, b: set<string>, x: string)
    requires x in Smallest(k, a + b)
    ensures x in Smallest(k, a) + Smallest(k, b)
  {
    SubsetsAreSmaller(Below(a, x), Below(a + b, x));
    SubsetsAreSmaller(Below(b, x), Below(a + b, x));
  }

  /** Merging the `k` smallest of each part yields the `k` smallest of the whole. */
  lemma SmallestOfUnion(k: nat, a: set<string>, b: set<string>)
    ensures Smallest(k, Smallest(k, a) + Smallest(k, b)) == Smallest(k, a + b)
  {
    var u, s := a + b, Smallest(k, a) + Smallest(k, b);
    forall x ensures x in Smallest(k, s) <==> x in Smallest(k, u) {
      if x in Smallest(k, u) {
        SmallestSurviveInParts(k, a, b, x);
        SubsetsAreSmaller(Below(s, x), Below(u, x));
      }
      if x in Smallest(k, s) && |Below(u, x)| >= k {
        forall y | y in Smallest(k, u) ensures y in Below(s, x) {
          SmallestSurviveInParts(k, a, b, y);
          FewerBelowMeansLess(u, x, y);
        }
        SubsetsAreSmaller(Smallest(k, u), Below(s, x));
        SubsetsAreSmaller(Below(u, x), u);
        SmallestCount(k, u);
      }
    }
  }
}
