/** One sequence picked out of another, left to right. */
module Subsequences {

  ghost predicate Increasing(f: seq<nat>, bound: nat) {
    (forall i :: 0 <= i < |f| ==> f[i] < bound) && (forall i, j :: 0 <= i < j < |f| ==> f[i] < f[j])
  }

  /** `f` picks the pattern's elements out of the text, left to right. */
  ghost predicate Picks<T>(pattern: seq<T>, text: seq<T>, f: seq<nat>) {
    |f| == |pattern| && Increasing(f, |text|) && forall i :: 0 <= i < |f| ==> text[f[i]] == pattern[i]
  }

  ghost predicate Subsequence<T>(pattern: seq<T>, text: seq<T>) { exists f :: Picks(pattern, text, f) }

  lemma TailPicks<T>(pattern: seq<T>, text: seq<T>, f: seq<nat>)
    requires text != [] && Picks(pattern, text, f)
    ensures pattern != [] && text[0] == pattern[0] ==> Subsequence(pattern[1..], text[1..])
    ensures pattern == [] || text[0] != pattern[0] ==> Subsequence(pattern, text[1..])
  {
    if pattern == [] {
      assert Picks(pattern, text[1..], []);
    } else if text[0] == pattern[0] {
      var g := seq(|f| - 1, i requires 0 <= i < |f| - 1 => assert f[0] < f[i + 1]; f[i + 1] - 1);
      assert Picks(pattern[1..], text[1..], g);
    } else {
      assert f[0] != 0;
      var g := seq(|f|, i requires 0 <= i < |f| => assert f[i] > 0 by { if i > 0 { assert f[0] < f[i]; } } f[i] - 1);
      assert Picks(pattern, text[1..], g);
    }
  }

  lemma HeadPicks<T>(pattern: seq<T>, text: seq<T>)
    requires text != []
    ensures pattern != [] && text[0] == pattern[0] && Subsequence(pattern[1..], text[1..])
            ==> Subsequence(pattern, text)
    ensures Subsequence(pattern, text[1..]) ==> Subsequence(pattern, text)
  {
    if Subsequence(pattern, text[1..]) {
      var f :| Picks(pattern, text[1..], f);
      assert Picks(pattern, text, seq(|f|, i requires 0 <= i < |f| => f[i] + 1));
    }
    if pattern != [] && text[0] == pattern[0] && Subsequence(pattern[1..], text[1..]) {
      var f :| Picks(pattern[1..], text[1..], f);
      assert Picks(pattern, text, [0] + seq(|f|, i requires 0 <= i < |f| => f[i] + 1));
    }
  }

  lemma Transitive<T>(a: seq<T>, b: seq<T>, c: seq<T>)
    requires Subsequence(a, b) && Subsequence(b, c)
    ensures Subsequence(a, c)
  {
    var f :| Picks(a, b, f);
    var g :| Picks(b, c, g);
    var h := seq(|f|, i requires 0 <= i < |f| => g[f[i]]);
    assert Picks(a, c, h);
  }

  lemma Nothing<T>(a: seq<T>)
    ensures Subsequence([], a)
  {
    assert Picks([], a, []);
  }

  lemma Itself<T>(a: seq<T>)
    ensures Subsequence(a, a)
  {
    assert Picks(a, a, seq(|a|, i => i));
  }
}
