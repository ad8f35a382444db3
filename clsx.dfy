/** The observable contract of the `clsx` package as the resolver calls it:
    given an ordered array of strings, it drops the falsy (empty) ones and joins
    the rest, in order, with a single space. It neither trims nor collapses
    whitespace inside a token. Only this contract is modelled here, not the
    package's internals. `Split` cuts a string at every space and is proved to
    be the inverse of the join on tokens without spaces. */
module Clsx {

  /** The tokens clsx keeps, in their original order: the non-empty ones. */
  function Kept(tokens: seq<string>): (r: seq<string>)
    ensures |r| <= |tokens|
    ensures forall t :: t in r ==> t != "" && t in tokens
  {
    if tokens == [] then []
    else
      var n := |tokens| - 1;
      assert forall t :: t in tokens[..n] ==> t in tokens;
      Kept(tokens[..n]) + (if tokens[n] == "" then [] else [tokens[n]])
  }

  /** The tokens separated by exactly one space, with none before the first
      or after the last. */
  function Join(ts: seq<string>): string
  {
    if |ts| == 0 then ""
    else if |ts| == 1 then ts[0]
    else ts[0] + " " + Join(ts[1..])
  }

  /** `clsx(tokens)` for an array of strings. */
  function Clsx(tokens: seq<string>): string
  {
    Join(Kept(tokens))
  }

  /** The pieces of `s` between spaces, like `s.split(" ")`. */
  function Split(s: string): (r: seq<string>)
    ensures |r| >= 1
  {
    if s == [] then [""]
    else
      var rest := Split(s[1..]);
      if s[0] == ' ' then [""] + rest
      else [[s[0]] + rest[0]] + rest[1..]
  }

  lemma {:induction false} KeptConcat(a: seq<string>, b: seq<string>)
    ensures Kept(a + b) == Kept(a) + Kept(b)
  {
    if b != [] {
      var n := |b| - 1;
      assert (a + b)[..|a + b| - 1] == a + b[..n];
      KeptConcat(a, b[..n]);
    } else {
      assert a + b == a;
    }
  }

  lemma {:induction false} KeptAllNonEmpty(ts: seq<string>)
    requires forall t :: t in ts ==> t != ""
    ensures Kept(ts) == ts
  {
    if ts != [] {
      var n := |ts| - 1;
      var init := ts[..n];
      assert ts == init + [ts[n]];
      assert forall t :: t in init ==> t in ts;
      KeptAllNonEmpty(init);
      assert ts[n] != "" by {
        assert ts[n] in ts;
      }
    }
  }

  /** The output is empty exactly when every token is empty. */
  lemma {:induction false} ClsxEmpty(tokens: seq<string>)
    ensures Clsx(tokens) == "" <==> forall t :: t in tokens ==> t == ""
  {
    if tokens != [] {
      var n := |tokens| - 1;
      ClsxEmpty(tokens[..n]);
      assert tokens == tokens[..n] + [tokens[n]];
      var ks := Kept(tokens);
      if ks != [] {
        assert ks[0] in ks;
        JoinNonEmpty(ks);
      }
      if forall t :: t in tokens ==> t == "" {
        assert forall t :: t in tokens[..n] ==> t in tokens;
      } else {
        var t :| t in tokens && t != "";
        if t != tokens[n] {
          assert t in tokens[..n];
        }
      }
    }
  }

  lemma {:induction false} JoinAppend(ts: seq<string>, t: string)
    requires ts != []
    ensures Join(ts + [t]) == Join(ts) + " " + t
  {
    if |ts| > 1 {
      assert (ts + [t])[1..] == ts[1..] + [t];
      JoinAppend(ts[1..], t);
    }
  }

  /** A join whose first token is non-empty is non-empty. */
  lemma JoinNonEmpty(ts: seq<string>)
    requires ts != [] && ts[0] != ""
    ensures Join(ts) != ""
  {
    assert |ts| >= 2 ==> Join(ts) == ts[0] + " " + Join(ts[1..]);
  }

  /** Appending a token appends it after one space, unless it is empty (then
      nothing changes) or the output so far is empty (then it is the output). */
  lemma ClsxAppend(tokens: seq<string>, t: string)
    ensures Clsx(tokens + [t]) ==
      if t == "" then Clsx(tokens)
      else if Clsx(tokens) == "" then t
      else Clsx(tokens) + " " + t
  {
    assert (tokens + [t])[..|tokens|] == tokens;
    assert Kept(tokens + [t]) == Kept(tokens) + (if t == "" then [] else [t]);
    if Kept(tokens) != [] {
      assert Kept(tokens)[0] in Kept(tokens);
      JoinNonEmpty(Kept(tokens));
    }
    if t == "" {
      assert Kept(tokens + [t]) == Kept(tokens);
    } else if Kept(tokens) == [] {
      assert Kept(tokens + [t]) == [t];
    } else {
      JoinAppend(Kept(tokens), t);
    }
  }

  lemma {:induction false} SplitNoSpace(t: string)
    requires ' ' !in t
    ensures Split(t) == [t]
  {
    if t != [] {
      SplitNoSpace(t[1..]);
      assert [t[0]] + t[1..] == t;
    }
  }

  lemma {:induction false} SplitAtSpace(a: string, b: string)
    ensures Split(a + " " + b) == Split(a) + Split(b)
  {
    if a == [] {
      assert (a + " " + b)[1..] == b;
    } else {
      assert (a + " " + b)[1..] == a[1..] + " " + b;
      SplitAtSpace(a[1..], b);
    }
  }

  /** Splitting the join of space-free tokens gives the tokens back. */
  lemma {:induction false} SplitJoin(ts: seq<string>)
    requires ts != []
    requires forall t :: t in ts ==> ' ' !in t
    ensures Split(Join(ts)) == ts
  {
    if |ts| == 1 {
      SplitNoSpace(ts[0]);
    } else {
      assert ts[0] in ts;
      assert forall t :: t in ts[1..] ==> t in ts;
      SplitJoin(ts[1..]);
      SplitAtSpace(ts[0], Join(ts[1..]));
      SplitNoSpace(ts[0]);
    }
  }

  /** Whenever some token is kept and no token holds a space, the output is
      the kept tokens separated by exactly one space: splitting it at each
      space gives back exactly the non-empty tokens, in order (so there is no
      leading, trailing or doubled space). */
  lemma ClsxSplit(tokens: seq<string>)
    requires forall t :: t in tokens ==> ' ' !in t
    requires exists t :: t in tokens && t != ""
    ensures Split(Clsx(tokens)) == Kept(tokens)
  {
    ClsxEmpty(tokens);
    SplitJoin(Kept(tokens));
  }
}
