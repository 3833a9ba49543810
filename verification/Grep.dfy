/** grep's pattern matcher against a declarative meaning of patterns. */
module Grep {
  /** A literal or '.', a starred literal or '.', or '$' at the end. */
  datatype Item = One(c: char) | Star(c: char) | Last

  function Items(re: string): (items: seq<Item>) {
    if re == [] then []
    else if |re| > 1 && re[1] == '*' then [Star(re[0])] + Items(re[2..])
    else if re == "$" then [Last]
    else [One(re[0])] + Items(re[1..])
  }

  predicate CharOk(c: char, x: char) {
    c == '.' || c == x
  }

  /** The first n characters of t are one the item stands for. */
  predicate ItemOk(x: Item, t: string, n: nat)
    requires n <= |t|
  {
    match x
    case One(c) => n == 1 && CharOk(c, t[0])
    case Star(c) => forall i :: 0 <= i < n ==> CharOk(c, t[i])
    case Last => n == 0 && t == []
  }

  /** Some beginning of t splits into pieces, one for each item. */
  ghost predicate Here(items: seq<Item>, t: string)
    decreases |items|
  {
    items == [] || exists n :: 0 <= n <= |t| && Splits(items, t, n)
  }

  ghost predicate Splits(items: seq<Item>, t: string, n: nat)
    requires items != [] && n <= |t|
    decreases |items|, 0
  {
    ItemOk(items[0], t, n) && Here(items[1..], t[n..])
  }

  /** Anchored patterns match at the start of the text, others anywhere in it. */
  ghost predicate Matches(re: string, t: string) {
    if re != [] && re[0] == '^' then Here(Items(re[1..]), t)
    else exists k :: 0 <= k <= |t| && HereAt(re, t, k)
  }

  ghost predicate HereAt(re: string, t: string, k: nat)
    requires k <= |t|
  {
    Here(Items(re), t[k..])
  }

  lemma HereOne(re: string, t: string)
    requires re != [] && !(|re| > 1 && re[1] == '*') && re != "$"
    ensures Here(Items(re), t) <==> t != [] && CharOk(re[0], t[0]) && Here(Items(re[1..]), t[1..])
  {
    var items := Items(re);
    assert items[1..] == Items(re[1..]);
    if t != [] && CharOk(re[0], t[0]) && Here(Items(re[1..]), t[1..]) {
      assert Splits(items, t, 1);
    }
  }

  lemma HereLast(t: string)
    ensures Here(Items("$"), t) <==> t == []
  {
    var items := Items("$");
    assert items == [Last] && items[1..] == [];
    if t == [] {
      assert Splits(items, t, 0);
    }
  }

  /** c*re here: some run of characters c stands for, then re. */
  lemma HereStar(c: char, re: string, t: string, items: seq<Item>)
    requires items == [Star(c)] + Items(re)
    ensures Here(items, t) <==> exists n :: 0 <= n <= |t| && StarAt(c, re, t, n)
  {
    assert items[1..] == Items(re);
    forall n | 0 <= n <= |t| ensures Splits(items, t, n) <==> StarAt(c, re, t, n) {
    }
  }

  ghost predicate StarAt(c: char, re: string, t: string, n: nat)
    requires n <= |t|
  {
    (forall i :: 0 <= i < n ==> CharOk(c, t[i])) && Here(Items(re), t[n..])
  }

  method MatchHere(re: string, t: string) returns (found: bool)
    ensures found <==> Here(Items(re), t)
    decreases |re|, 0
  {
    hide Here, Items;
    if re == [] {
      EmptyHere(t);
      return true;
    }
    if |re| > 1 && re[1] == '*' {
      found := MatchStar(re[0], re[2..], t);
      ItemsStar(re);
      HereStar(re[0], re[2..], t, Items(re));
      return;
    }
    if re[0] == '$' && |re| == 1 {
      assert re == "$";
      HereLast(t);
      return t == [];
    }
    HereOne(re, t);
    if t != [] && (re[0] == '.' || re[0] == t[0]) {
      found := MatchHere(re[1..], t[1..]);
      return;
    }
    found := false;
  }

  lemma EmptyHere(t: string)
    ensures Here(Items([]), t)
  {
  }

  lemma ItemsStar(re: string)
    requires |re| > 1 && re[1] == '*'
    ensures Items(re) == [Star(re[0])] + Items(re[2..])
  {
  }

  method MatchStar(c: char, re: string, t: string) returns (found: bool)
    ensures found <==> exists n :: 0 <= n <= |t| && StarAt(c, re, t, n)
    decreases |re|, 1
  {
    hide Here, Items;
    var i := 0;
    while true
      invariant 0 <= i <= |t|
      invariant forall k :: 0 <= k < i ==> CharOk(c, t[k])
      invariant forall n :: 0 <= n < i ==> !StarAt(c, re, t, n)
      decreases |t| - i
    {
      var here := MatchHere(re, t[i..]);
      if here {
        assert StarAt(c, re, t, i);
        return true;
      }
      assert !StarAt(c, re, t, i);
      if i == |t| || !(t[i] == c || c == '.') {
        return false;
      }
      i := i + 1;
    }
  }

  /** match: true exactly when the text has a match. */
  method Match(re: string, t: string) returns (found: bool)
    ensures found <==> Matches(re, t)
  {
    hide Here, Items;
    if re != [] && re[0] == '^' {
      found := MatchHere(re[1..], t);
      return;
    }
    var i := 0;
    while true
      invariant 0 <= i <= |t|
      invariant forall k :: 0 <= k < i ==> !HereAt(re, t, k)
      decreases |t| - i
    {
      var here := MatchHere(re, t[i..]);
      if here {
        assert HereAt(re, t, i);
        return true;
      }
      assert !HereAt(re, t, i);
      if i == |t| {
        return false;
      }
      i := i + 1;
    }
  }
}
