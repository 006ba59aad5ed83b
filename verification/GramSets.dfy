/** Sets of n-grams: how many have each length, and the n-grams that others start with. */
module GramSets {

  ghost function OfLength(grams: set<seq<nat>>, n: nat): set<seq<nat>> {
    set g | g in grams && |g| == n
  }

  lemma {:induction false} OneMoreOfLength(grams: set<seq<nat>>, g: seq<nat>, length: nat)
    requires g !in grams
    ensures |OfLength(grams + {g}, length)| == |OfLength(grams, length)| + if |g| == length then 1 else 0
  {
    var before := OfLength(grams, length);
    assert OfLength(grams + {g}, length) == if |g| == length then before + {g} else before;
  }

  lemma {:induction false} SubsetSize(a: set<seq<nat>>, b: set<seq<nat>>)
    requires a <= b
    ensures |a| <= |b|
  {
    assert b == a + (b - a) && a * (b - a) == {};
    assert |a + (b - a)| == |a| + |b - a|;
  }

  /** The n-gram and all it starts with. */
  ghost function Prefixes(g: seq<nat>): set<seq<nat>> {
    set k | 1 <= k <= |g| :: g[..k]
  }

  /** For each length from two on there are fewer than `sizes` says. */
  ghost predicate Fits(grams: set<seq<nat>>, sizes: seq<nat>) {
    forall n: nat {:trigger OfLength(grams, n)} :: 2 <= n < |sizes| + 2 ==> |OfLength(grams, n)| < sizes[n - 2]
  }

  lemma {:induction false} FewerFit(a: set<seq<nat>>, b: set<seq<nat>>, sizes: seq<nat>)
    requires a <= b && Fits(b, sizes)
    ensures Fits(a, sizes)
  {
    forall n: nat | 2 <= n < |sizes| + 2
      ensures |OfLength(a, n)| < sizes[n - 2]
    {
      SubsetSize(OfLength(a, n), OfLength(b, n));
    }
  }

  /** One more fits exactly if there is room for its length. */
  lemma {:induction false} OneMoreFits(grams: set<seq<nat>>, g: seq<nat>, sizes: seq<nat>)
    requires g !in grams && 2 <= |g| < |sizes| + 2 && Fits(grams, sizes)
    ensures Fits(grams + {g}, sizes) <==> |OfLength(grams, |g|)| + 1 < sizes[|g| - 2]
    ensures |OfLength(grams + {g}, |g|)| == |OfLength(grams, |g|)| + 1
  {
    forall n: nat
      ensures |OfLength(grams + {g}, n)| == |OfLength(grams, n)| + if |g| == n then 1 else 0
    {
      OneMoreOfLength(grams, g, n);
    }
  }
}
