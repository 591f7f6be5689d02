/** Sequences with elements left out and the order kept. */
module Subsequences {

  /** s is t with some elements left out, the others in their order. */
  predicate Subsequence<T(==)>(s: seq<T>, t: seq<T>) {
    s == [] || (t != [] && if s[|s| - 1] == t[|t| - 1] then Subsequence(s[..|s| - 1], t[..|t| - 1])
                           else Subsequence(s, t[..|t| - 1]))
  }

  /** An element more in t, first for one that may be the last of s, then for any number. */
  lemma {:induction false} SubsequenceOneMore<T>(s: seq<T>, t: seq<T>, x: T)
    requires Subsequence(s, t)
    ensures Subsequence(s, t + [x])
    ensures s != [] ==> Subsequence(s[..|s| - 1], t)
    decreases t
  {
    assert (t + [x])[..|t|] == t;
    if s != [] {
      var front, last := s[..|s| - 1], |t| - 1;
      assert t[..last] + [t[last]] == t;
      if s[|s| - 1] == t[last] {
        SubsequenceOneMore(front, t[..last], t[last]);
      } else {
        SubsequenceOneMore(s, t[..last], t[last]);
        SubsequenceOneMore(front, t[..last], t[last]);
      }
    }
  }

  lemma {:induction false} SubsequenceSkip<T>(s: seq<T>, t: seq<T>, more: seq<T>)
    requires Subsequence(s, t)
    ensures Subsequence(s, t + more)
  {
    if more == [] {
      assert t + more == t;
    } else {
      var n := |more| - 1;
      SubsequenceSkip(s, t, more[..n]);
      SubsequenceOneMore(s, t + more[..n], more[n]);
      assert t + more[..n] + [more[n]] == t + more;
    }
  }

  /** Taking the front of each burst keeps the order over all bursts. */
  lemma {:induction false} SubsequenceBurst<T>(s: seq<T>, t: seq<T>, burst: seq<T>, n: nat)
    requires Subsequence(s, t) && n <= |burst|
    ensures Subsequence(s + burst[..n], t + burst)
  {
    SubsequenceBoth(s, t, burst[..n]);
    SubsequenceSkip(s + burst[..n], t + burst[..n], burst[n..]);
    assert t + burst[..n] + burst[n..] == t + burst;
  }

  lemma {:induction false} SubsequenceBoth<T>(s: seq<T>, t: seq<T>, more: seq<T>)
    requires Subsequence(s, t)
    ensures Subsequence(s + more, t + more)
  {
    if more == [] {
      assert s + more == s && t + more == t;
    } else {
      var n := |more| - 1;
      SubsequenceBoth(s, t, more[..n]);
      assert (s + more)[..|s| + n] == s + more[..n];
      assert (t + more)[..|t| + n] == t + more[..n];
    }
  }

  /** Nothing was left out if the lengths agree. */
  lemma {:induction false} SubsequenceWhole<T>(s: seq<T>, t: seq<T>)
    requires Subsequence(s, t)
    ensures |s| <= |t| && (|s| == |t| ==> s == t)
    decreases t
  {
    if s != [] {
      var n := |t| - 1;
      if s[|s| - 1] == t[n] {
        SubsequenceWhole(s[..|s| - 1], t[..n]);
        assert s[..|s| - 1] + [s[|s| - 1]] == s && t[..n] + [t[n]] == t;
      } else {
        SubsequenceWhole(s, t[..n]);
      }
    }
  }

  /** Positions in t, rising, that hold the elements of s. */
  predicate Positions<T(==)>(s: seq<T>, t: seq<T>, at: seq<nat>) {
    && |at| == |s|
    && (forall i :: 0 <= i < |s| ==> at[i] < |t| && t[at[i]] == s[i])
    && (forall i, j :: 0 <= i < j < |s| ==> at[i] < at[j])
  }

  lemma {:induction false} PositionsOf<T>(s: seq<T>, t: seq<T>) returns (at: seq<nat>)
    requires Subsequence(s, t)
    ensures Positions(s, t, at)
    decreases t
  {
    if s == [] {
      at := [];
    } else {
      var m, n := |s| - 1, |t| - 1;
      if s[m] == t[n] {
        var front := PositionsOf(s[..m], t[..n]);
        at := front + [n];
        assert forall i :: 0 <= i < m ==> s[..m][i] == s[i] && t[..n][front[i]] == t[front[i]];
      } else {
        at := PositionsOf(s, t[..n]);
        assert forall i :: 0 <= i <= m ==> t[..n][at[i]] == t[at[i]];
      }
    }
  }

  lemma {:induction false} SubsequenceAt<T>(s: seq<T>, t: seq<T>, at: seq<nat>)
    requires Positions(s, t, at)
    ensures Subsequence(s, t)
    decreases t
  {
    if s != [] {
      var m, n := |s| - 1, |t| - 1;
      if at[m] == n {
        assert Positions(s[..m], t[..n], at[..m]);
        SubsequenceAt(s[..m], t[..n], at[..m]);
      } else {
        assert forall i :: 0 <= i < |s| ==> at[i] < n by {
          forall i | 0 <= i < |s| ensures at[i] < n { assert i < m ==> at[i] < at[m]; }
        }
        assert Positions(s, t[..n], at);
        SubsequenceAt(s, t[..n], at);
        if s[m] == t[n] {
          SubsequenceOneMore(s, t[..n], t[n]);
          assert t[..n] + [t[n]] == t;
        }
      }
    }
  }

  /** Exactly the lists that are found in t at rising positions are subsequences of it. */
  lemma SubsequenceExact<T>(s: seq<T>, t: seq<T>)
    ensures Subsequence(s, t) <==> exists at :: Positions(s, t, at)
  {
    hide Positions, Subsequence;
    if Subsequence(s, t) {
      var at := PositionsOf(s, t);
    }
    if at :| Positions(s, t, at) {
      SubsequenceAt(s, t, at);
    }
  }
}
