/** The regular-expression matcher of grep: literals, '.', postfix '*', and the anchors '^' (first
    character only) and '$' (last character only). */
module Grep {

  /** A compiled pattern is a list of items.  A star binds to the character before it, whatever
      that is, so "$*" and "^*" (after the first character) are starred literals. */
  datatype Item = One(c: char) | Many(c: char) | End

  function Items(re: string): seq<Item> {
    if re == "" then []
    else if |re| >= 2 && re[1] == '*' then [Many(re[0])] + Items(re[2..])
    else if re == "$" then [End]
    else [One(re[0])] + Items(re[1..])
  }

  predicate Accepts(p: char, c: char) {
    p == '.' || p == c
  }

  predicate AllAccepted(p: char, w: string) {
    forall i :: 0 <= i < |w| ==> Accepts(p, w[i])
  }

  /** w is a word of one item. */
  predicate Fits(item: Item, w: string) {
    match item
    case One(c) => |w| == 1 && Accepts(c, w[0])
    case Many(c) => AllAccepted(c, w)
    case End => w == ""
  }

  function Concat(parts: seq<string>): string {
    if parts == [] then "" else parts[0] + Concat(parts[1..])
  }

  ghost predicate Splits(items: seq<Item>, w: string, parts: seq<string>) {
    && |parts| == |items| && Concat(parts) == w
    && forall i :: 0 <= i < |items| ==> Fits(items[i], parts[i])
  }

  /** The language of a list of items: words that split into one word of each item, in order. */
  ghost predicate InLanguage(items: seq<Item>, w: string) {
    exists parts :: Splits(items, w, parts)
  }

  predicate AnchoredAtEnd(items: seq<Item>) {
    items != [] && items[|items| - 1] == End
  }

  /** Some prefix of text, all of it when the pattern ends in '$', is in the language. */
  ghost predicate HitAt(items: seq<Item>, text: string, j: nat) {
    j <= |text| && InLanguage(items, text[..j]) && (AnchoredAtEnd(items) ==> j == |text|)
  }

  ghost predicate HitsHere(items: seq<Item>, text: string) {
    exists j: nat :: HitAt(items, text, j)
  }

  /** Some substring of text is in the language of re, respecting both anchors. */
  ghost predicate Hits(re: string, text: string) {
    if re != "" && re[0] == '^' then HitsHere(Items(re[1..]), text)
    else exists i: nat :: i <= |text| && HitsHere(Items(re), text[i..])
  }

  // ----- taking one item off the front of the language -----

  lemma SplitFirst(first: Item, rest: seq<Item>, w: string) returns (k: nat)
    requires InLanguage([first] + rest, w)
    ensures k <= |w| && Fits(first, w[..k]) && InLanguage(rest, w[k..])
  {
    var items := [first] + rest;
    var parts :| Splits(items, w, parts);
    k := |parts[0]|;
    assert w[..k] == parts[0] && w[k..] == Concat(parts[1..]);
    assert Fits(items[0], parts[0]);
    forall i | 0 <= i < |rest| ensures Fits(rest[i], parts[1..][i]) {
      assert Fits(items[i + 1], parts[i + 1]);
    }
    assert Splits(rest, w[k..], parts[1..]);
  }

  lemma JoinFirst(first: Item, rest: seq<Item>, w: string, k: nat)
    requires k <= |w| && Fits(first, w[..k]) && InLanguage(rest, w[k..])
    ensures InLanguage([first] + rest, w)
  {
    var parts :| Splits(rest, w[k..], parts);
    var all := [w[..k]] + parts;
    assert all[1..] == parts;
    assert w == w[..k] + w[k..];
    assert Splits([first] + rest, w, all);
  }

  /** A hit of first followed by rest is a word of first followed by a hit of rest. */
  lemma HitSplits(first: Item, rest: seq<Item>, text: string) returns (k: nat)
    requires HitsHere([first] + rest, text)
    ensures k <= |text| && Fits(first, text[..k]) && (rest != [] || first != End ==> HitsHere(rest, text[k..]))
    ensures first == End && rest == [] ==> text == ""
  {
    var items := [first] + rest;
    var j: nat :| HitAt(items, text, j);
    k := SplitFirst(first, rest, text[..j]);
    assert text[..j][..k] == text[..k];
    assert text[..j][k..] == text[k..][..j - k];
    assert rest != [] ==> items[|items| - 1] == rest[|rest| - 1];
    assert rest != [] || first != End ==> HitAt(rest, text[k..], j - k);
    if first == End && rest == [] {
      assert AnchoredAtEnd(items);
      assert text[k..][..j - k] == Concat([]) && text[..k] == "";
    }
  }

  lemma HitJoins(first: Item, rest: seq<Item>, text: string, k: nat)
    requires k <= |text| && Fits(first, text[..k]) && HitsHere(rest, text[k..]) && first != End
    ensures HitsHere([first] + rest, text)
  {
    var items := [first] + rest;
    var j: nat :| HitAt(rest, text[k..], j);
    assert text[..k + j][..k] == text[..k];
    assert text[..k + j][k..] == text[k..][..j];
    JoinFirst(first, rest, text[..k + j], k);
    assert rest != [] ==> items[|items| - 1] == rest[|rest| - 1];
    assert HitAt(items, text, k + j);
  }

  lemma EmptyHits(text: string)
    ensures HitsHere([], text)
  {
    assert Splits([], text[..0], []);
    assert HitAt([], text, 0);
  }

  lemma EndHits(text: string)
    ensures HitsHere([End], text) <==> text == ""
  {
    if text == "" {
      assert Concat([""]) == "" + Concat([]);
      assert Splits([End], text[..0], [""]);
      assert HitAt([End], text, 0);
    } else if HitsHere([End], text) {
      assert [End] + [] == [End];
      var _ := HitSplits(End, [], text);
    }
  }

  lemma OneHits(c: char, rest: seq<Item>, text: string)
    ensures HitsHere([One(c)] + rest, text) <==> text != "" && Accepts(c, text[0]) && HitsHere(rest, text[1..])
  {
    if HitsHere([One(c)] + rest, text) {
      var k := HitSplits(One(c), rest, text);
    }
    if text != "" && Accepts(c, text[0]) && HitsHere(rest, text[1..]) {
      HitJoins(One(c), rest, text, 1);
    }
  }

  ghost predicate StarHits(c: char, rest: seq<Item>, text: string, k: nat) {
    k <= |text| && AllAccepted(c, text[..k]) && HitsHere(rest, text[k..])
  }

  ghost predicate SomeStarHits(c: char, rest: seq<Item>, text: string) {
    exists k: nat :: StarHits(c, rest, text, k)
  }

  lemma ManyHits(c: char, rest: seq<Item>, text: string)
    ensures HitsHere([Many(c)] + rest, text) <==> SomeStarHits(c, rest, text)
  {
    if HitsHere([Many(c)] + rest, text) {
      var k := HitSplits(Many(c), rest, text);
      assert StarHits(c, rest, text, k);
    }
    if k: nat :| StarHits(c, rest, text, k) {
      HitJoins(Many(c), rest, text, k);
    }
  }

  // ----- the matcher -----

  method Match(re: string, text: string) returns (found: bool)
    ensures found <==> Hits(re, text)
  {
    if |re| > 0 && re[0] == '^' {
      found := MatchHere(re[1..], text);
      return;
    }
    var at := 0;
    while true
      invariant at <= |text|
      invariant forall i: nat :: i < at ==> !HitsHere(Items(re), text[i..])
      decreases |text| - at
    {
      found := MatchHere(re, text[at..]);
      if found { return; }
      if at == |text| { return false; }
      at := at + 1;
    }
  }

  method MatchHere(re: string, text: string) returns (found: bool)
    ensures found <==> HitsHere(Items(re), text)
    decreases |re|, 0
  {
    hide HitsHere, SomeStarHits;
    if re == "" {
      EmptyHits(text);
      return true;
    }
    if |re| >= 2 && re[1] == '*' {
      assert Items(re) == [Many(re[0])] + Items(re[2..]);
      ManyHits(re[0], Items(re[2..]), text);
      found := MatchStar(re[0], re[2..], text);
      return;
    }
    if re[0] == '$' && |re| == 1 {
      EndHits(text);
      return text == "";
    }
    OneHits(re[0], Items(re[1..]), text);
    if text != "" && (re[0] == '.' || re[0] == text[0]) {
      found := MatchHere(re[1..], text[1..]);
      return;
    }
    return false;
  }

  method MatchStar(c: char, re: string, text: string) returns (found: bool)
    ensures found <==> SomeStarHits(c, Items(re), text)
    decreases |re|, 1
  {
    var at := 0;
    while true
      invariant at <= |text| && AllAccepted(c, text[..at])
      invariant forall k: nat :: k < at ==> !StarHits(c, Items(re), text, k)
      decreases |text| - at
    {
      found := MatchHere(re, text[at..]);
      if found {
        assert StarHits(c, Items(re), text, at);
        return;
      }
      assert !StarHits(c, Items(re), text, at);
      if at == |text| { return false; }
      if !(text[at] == c || c == '.') {
        forall k: nat | at < k ensures !StarHits(c, Items(re), text, k) {
          if k <= |text| { assert text[..k][at] == text[at]; }
        }
        return false;
      }
      at := at + 1;
    }
  }

  ghost predicate RunThen(c: char, re: string, text: string, k: nat) {
    && k <= |text| && (forall i :: 0 <= i < k ==> c == '.' || text[i] == c)
    && HitsHere(Items(re), text[k..])
  }

  /** A starred character stands for any run of it, none included. */
  lemma StarHere(c: char, re: string, text: string)
    ensures HitsHere(Items([c, '*'] + re), text) <==> exists k: nat :: RunThen(c, re, text, k)
  {
    hide HitsHere;
    var all := [c, '*'] + re;
    assert all[2..] == re && Items(all) == [Many(c)] + Items(re);
    ManyHits(c, Items(re), text);
    forall k: nat ensures StarHits(c, Items(re), text, k) <==> RunThen(c, re, text, k) {
      if k <= |text| { assert forall i :: 0 <= i < k ==> text[..k][i] == text[i]; }
    }
  }

  // ----- patterns of plain characters -----

  predicate Plain(re: string) {
    forall i :: 0 <= i < |re| ==> re[i] != '*'
  }

  /** w matches character by character, a dot matching any. */
  predicate Alike(re: string, w: string) {
    |w| == |re| && forall i :: 0 <= i < |re| ==> re[i] == '.' || re[i] == w[i]
  }

  /** A pattern of literals and dots hits at the front of exactly the texts that begin alike. */
  lemma {:induction false} PlainHere(re: string, text: string)
    requires Plain(re) && (re == "" || re[|re| - 1] != '$')
    ensures HitsHere(Items(re), text) <==> |text| >= |re| && Alike(re, text[..|re|])
    decreases |re|
  {
    if re == "" {
      EmptyHits(text);
    } else {
      hide HitsHere;
      OneHits(re[0], Items(re[1..]), text);
      if text != "" {
        PlainHere(re[1..], text[1..]);
        if |text| >= |re| { assert text[..|re|][1..] == text[1..][..|re| - 1]; }
        AlikeFirst(re, text);
      }
    }
  }

  lemma AlikeFirst(re: string, text: string)
    requires re != "" && text != ""
    ensures |text| >= |re| && Alike(re, text[..|re|]) <==>
      Accepts(re[0], text[0]) && |text| - 1 >= |re| - 1 && Alike(re[1..], text[1..][..|re| - 1])
  {
    if |text| >= |re| {
      forall i | 0 <= i < |re| - 1
        ensures re[1..][i] == re[i + 1] && text[1..][..|re| - 1][i] == text[..|re|][i + 1]
      { }
      if Accepts(re[0], text[0]) && Alike(re[1..], text[1..][..|re| - 1]) {
        forall i | 0 <= i < |re| ensures re[i] == '.' || re[i] == text[..|re|][i] {
          if i > 0 { assert re[1..][i - 1] == re[i] && text[1..][..|re| - 1][i - 1] == text[..|re|][i]; }
        }
      }
    }
  }

  /** With a dollar behind it, exactly the texts that are alike. */
  lemma {:induction false} PlainToEnd(re: string, text: string)
    requires Plain(re)
    ensures HitsHere(Items(re + "$"), text) <==> Alike(re, text)
    decreases |re|
  {
    var all := re + "$";
    if re == "" {
      EndHits(text);
      assert Items(all) == [End];
    } else {
      hide HitsHere;
      assert all[1..] == re[1..] + "$" && all[0] == re[0];
      assert Items(all) == [One(re[0])] + Items(all[1..]);
      OneHits(re[0], Items(all[1..]), text);
      if text != "" {
        PlainToEnd(re[1..], text[1..]);
        assert text[..|text|] == text && text[1..][..|text| - 1] == text[1..];
        if |text| == |re| { AlikeFirst(re, text); }
      }
    }
  }

  ghost predicate AlikeAt(re: string, text: string, i: nat) {
    i + |re| <= |text| && Alike(re, text[i..i + |re|])
  }

  /** grep finds a plain pattern exactly where it occurs; behind ^ only at the front, before $ only at
      the end. */
  lemma PlainHits(re: string, text: string)
    requires Plain(re) && re != "" && re[0] != '^' && re[|re| - 1] != '$'
    ensures Hits(re, text) <==> exists i: nat :: AlikeAt(re, text, i)
    ensures Hits("^" + re, text) <==> AlikeAt(re, text, 0)
    ensures Hits(re + "$", text) <==> |re| <= |text| && AlikeAt(re, text, |text| - |re|)
    ensures Hits("^" + re + "$", text) <==> Alike(re, text)
  {
    hide HitsHere;
    forall i: nat | i <= |text|
      ensures HitsHere(Items(re), text[i..]) <==> AlikeAt(re, text, i)
      ensures HitsHere(Items(re + "$"), text[i..]) <==> i + |re| == |text| && AlikeAt(re, text, i)
    {
      PlainHere(re, text[i..]);
      PlainToEnd(re, text[i..]);
      if i + |re| <= |text| { assert text[i..][..|re|] == text[i..i + |re|]; }
      if i + |re| == |text| { assert text[i..] == text[i..i + |re|]; }
    }
    assert text[0..] == text;
    assert ("^" + re)[1..] == re && ("^" + re + "$")[1..] == re + "$";
    assert |re| == |text| ==> text[0..|re|] == text;
    if i: nat :| AlikeAt(re, text, i) { assert HitsHere(Items(re), text[i..]); }
    if |re| <= |text| && AlikeAt(re, text, |text| - |re|) {
      assert HitsHere(Items(re + "$"), text[|text| - |re|..]);
    }
  }
}
