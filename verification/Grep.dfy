/** grep.c: the regular expression matcher, against the meaning of a pattern as a list
    of items. A C string is modelled by its characters before the terminating NUL. */
module Grep {

  // ---- What a pattern means -----------------------------------------------------------

  datatype Item = One(c: char) | Star(c: char) | End

  /** A starred character counts before a final dollar, and a lone '*' is itself. */
  function Items(re: string): seq<Item> {
    if re == "" then []
    else if |re| >= 2 && re[1] == '*' then [Star(re[0])] + Items(re[2..])
    else if re == "$" then [End]
    else [One(re[0])] + Items(re[1..])
  }

  function ShowItem(item: Item): string {
    match item
    case One(c) => [c]
    case Star(c) => [c, '*']
    case End => "$"
  }

  /** The pattern that spells the items. */
  function Show(items: seq<Item>): string {
    if items == [] then "" else ShowItem(items[0]) + Show(items[1..])
  }

  /** A dollar is the end exactly when it is the last character, and a star after a plain character makes
      a starred one. */
  predicate Normal(items: seq<Item>) {
    forall k :: 0 <= k < |items| ==>
      && (items[k].End? ==> k == |items| - 1) && (items[k] == One('$') ==> k < |items| - 1)
      && (k + 1 < |items| && items[k].One? ==> items[k + 1] != One('*') && items[k + 1] != Star('*'))
  }

  /** The items of a pattern spell it, in the normal way. */
  lemma {:induction false} ItemsShow(re: string)
    ensures Show(Items(re)) == re && Normal(Items(re))
    ensures re != "" ==> Items(re) != [] && (re[0] != '*' ==> Items(re)[0] != One('*') && Items(re)[0] != Star('*'))
    decreases |re|
  {
    if re == "" {
    } else if |re| >= 2 && re[1] == '*' {
      ItemsShow(re[2..]);
      var rest := Items(re[2..]);
      assert Items(re)[1..] == rest && re == [re[0], '*'] + re[2..];
      NormalMore(Star(re[0]), rest);
    } else if re == "$" {
      assert Items(re) == [End] && Show([End]) == "$" by { assert [End][1..] == []; }
    } else {
      ItemsShow(re[1..]);
      var rest := Items(re[1..]);
      assert Items(re)[1..] == rest && re == [re[0]] + re[1..];
      NormalMore(One(re[0]), rest);
    }
  }

  lemma NormalMore(item: Item, rest: seq<Item>)
    requires Normal(rest) && !item.End? && (item == One('$') ==> rest != [])
    requires item.One? && rest != [] ==> rest[0] != One('*') && rest[0] != Star('*')
    ensures Normal([item] + rest)
  {
    var all := [item] + rest;
    forall k | 0 <= k < |all|
      ensures (all[k].End? ==> k == |all| - 1) && (all[k] == One('$') ==> k < |all| - 1)
      ensures k + 1 < |all| && all[k].One? ==> all[k + 1] != One('*') && all[k + 1] != Star('*')
    {
      assert k > 0 ==> all[k] == rest[k - 1];
      assert k + 1 < |all| ==> all[k + 1] == rest[k];
    }
  }

  /** And no other items do. */
  lemma {:induction false} ItemsOnly(items: seq<Item>)
    requires Normal(items)
    ensures Items(Show(items)) == items
  {
    if items != [] {
      var rest := items[1..];
      assert Normal(rest) by {
        forall k | 0 <= k < |rest|
          ensures (rest[k].End? ==> k == |rest| - 1) && (rest[k] == One('$') ==> k < |rest| - 1)
          ensures k + 1 < |rest| && rest[k].One? ==> rest[k + 1] != One('*') && rest[k + 1] != Star('*')
        {
          assert rest[k] == items[k + 1];
        }
      }
      ItemsOnly(rest);
      assert Show(items) == ShowItem(items[0]) + Show(rest);
      ShowFirst(rest);
      match items[0]
      case Star(c) => assert Show(items)[2..] == Show(rest);
      case One(c) => assert Show(items)[1..] == Show(rest);
      case End => assert rest == [] && Show(rest) == "";
    }
  }

  lemma ShowFirst(items: seq<Item>)
    ensures Show(items) == "" <==> items == []
    ensures items != [] ==> (Show(items)[0] == '*' <==> items[0] == One('*') || items[0] == Star('*'))
  {
  }

  predicate Fits(c: char, x: char) { c == '.' || c == x }

  /** A piece of text that one item stands for; `last` says that the text ends after it. */
  predicate Spells(item: Item, piece: string, last: bool) {
    match item
    case One(c) => |piece| == 1 && Fits(c, piece[0])
    case Star(c) => forall k :: 0 <= k < |piece| ==> Fits(c, piece[k])
    case End => piece == "" && last
  }

  function Joined(pieces: seq<string>): string {
    if pieces == [] then "" else pieces[0] + Joined(pieces[1..])
  }

  /** text[..j] cut into pieces, one for each item. */
  ghost predicate Cut(items: seq<Item>, text: string, j: nat, pieces: seq<string>) {
    && j <= |text| && |pieces| == |items| && Joined(pieces) == text[..j]
    && forall k :: 0 <= k < |items| ==> Spells(items[k], pieces[k], j == |text|)
  }

  /** Some prefix of the text has the meaning of the items. */
  ghost predicate Here(items: seq<Item>, text: string) {
    exists j: nat, pieces: seq<string> :: Cut(items, text, j, pieces)
  }

  /** The text has a substring (a prefix, after '^') with the meaning of the pattern. */
  ghost predicate Found(re: string, text: string) {
    if re != "" && re[0] == '^' then Here(Items(re[1..]), text)
    else exists i :: 0 <= i <= |text| && Here(Items(re), text[i..])
  }

  // ---- How the meaning unfolds --------------------------------------------------------

  lemma HereNone(text: string)
    ensures Here([], text)
  {
    assert Cut([], text, 0, []);
  }

  lemma CutAfter(item: Item, rest: seq<Item>, text: string, piece: string, j: nat, pieces: seq<string>)
    requires piece <= text && Cut(rest, text[|piece|..], j, pieces)
    requires Spells(item, piece, j + |piece| == |text|)
    ensures Cut([item] + rest, text, j + |piece|, [piece] + pieces)
  {
    assert ([piece] + pieces)[1..] == pieces;
    assert piece + text[|piece|..][..j] == text[..j + |piece|];
  }

  lemma CutFirst(item: Item, rest: seq<Item>, text: string, j: nat, pieces: seq<string>)
    requires Cut([item] + rest, text, j, pieces)
    ensures |pieces| > 0 && pieces[0] <= text && |pieces[0]| <= j && Spells(item, pieces[0], j == |text|)
    ensures Cut(rest, text[|pieces[0]|..], j - |pieces[0]|, pieces[1..])
  {
    var p := pieces[0];
    var items := [item] + rest;
    assert items[0] == item && items[1..] == rest;
    assert p + Joined(pieces[1..]) == text[..j];
    Tail(p, Joined(pieces[1..]), text, j);
    forall k | 0 <= k < |rest| ensures Spells(rest[k], pieces[1..][k], j - |p| == |text[|p|..]|) {
      assert Spells(items[k + 1], pieces[k + 1], j == |text|);
    }
  }

  lemma Tail(p: string, q: string, text: string, j: nat)
    requires j <= |text| && p + q == text[..j]
    ensures |p| <= j && p <= text && q == text[|p|..][..j - |p|]
  {
    assert (p + q)[..|p|] == p && (p + q)[|p|..] == q;
    assert text[..j][..|p|] == text[..|p|];
  }

  lemma HereAfter(item: Item, rest: seq<Item>, text: string, piece: string)
    requires piece <= text && Spells(item, piece, false) && Here(rest, text[|piece|..])
    ensures Here([item] + rest, text)
  {
    var j: nat, pieces: seq<string> :| Cut(rest, text[|piece|..], j, pieces);
    CutAfter(item, rest, text, piece, j, pieces);
  }

  lemma HereOne(c: char, rest: seq<Item>, text: string)
    ensures Here([One(c)] + rest, text) <==> text != "" && Fits(c, text[0]) && Here(rest, text[1..])
  {
    if Here([One(c)] + rest, text) {
      var j: nat, pieces: seq<string> :| Cut([One(c)] + rest, text, j, pieces);
      CutFirst(One(c), rest, text, j, pieces);
      assert Here(rest, text[|pieces[0]|..]);
    }
    if text != "" && Fits(c, text[0]) && Here(rest, text[1..]) {
      HereAfter(One(c), rest, text, text[..1]);
    }
  }

  predicate AllFit(c: char, text: string, k: nat)
    requires k <= |text|
  {
    forall i :: 0 <= i < k ==> Fits(c, text[i])
  }

  lemma HereStar(c: char, rest: seq<Item>, text: string)
    ensures Here([Star(c)] + rest, text) <==>
            exists k :: 0 <= k <= |text| && AllFit(c, text, k) && Here(rest, text[k..])
  {
    if Here([Star(c)] + rest, text) {
      var j: nat, pieces: seq<string> :| Cut([Star(c)] + rest, text, j, pieces);
      CutFirst(Star(c), rest, text, j, pieces);
      assert AllFit(c, text, |pieces[0]|) && Here(rest, text[|pieces[0]|..]);
    }
    if k :| 0 <= k <= |text| && AllFit(c, text, k) && Here(rest, text[k..]) {
      HereAfter(Star(c), rest, text, text[..k]);
    }
  }

  lemma HereEnd(text: string)
    ensures Here([End], text) <==> text == ""
  {
    assert [End] + [] == [End];
    if Here([End], text) {
      var j: nat, pieces: seq<string> :| Cut([End] + [], text, j, pieces);
      CutFirst(End, [], text, j, pieces);
    }
    if text == "" {
      assert Joined([""]) == "" + Joined([""][1..]);
      assert Cut([End], text, 0, [""]);
    }
  }

  // ---- The matcher ----------------------------------------------------------------------

  method MatchHere(re: string, text: string) returns (found: bool)
    ensures found <==> Here(Items(re), text)
    decreases |re|, 1
  {
    hide Here, Spells, Fits;
    if re == "" {
      HereNone(text);
      return true;
    }
    if |re| >= 2 && re[1] == '*' {
      HereStar(re[0], Items(re[2..]), text);
      found := MatchStar(re[0], re[2..], text);
      return;
    }
    if re[0] == '$' && |re| == 1 {
      HereEnd(text);
      return text == "";
    }
    HereOne(re[0], Items(re[1..]), text);
    if text != "" && Fits(re[0], text[0]) {
      found := MatchHere(re[1..], text[1..]);
      return;
    }
    return false;
  }

  /** The loop over the number of repeated characters, shortest first. */
  method MatchStar(c: char, re: string, text: string) returns (found: bool)
    ensures found <==> exists k :: 0 <= k <= |text| && AllFit(c, text, k) && Here(Items(re), text[k..])
    decreases |re|, 2
  {
    hide Here, Items, Fits;
    var k := 0;
    while true
      invariant 0 <= k <= |text| && AllFit(c, text, k)
      invariant forall i :: 0 <= i < k ==> !Here(Items(re), text[i..])
      decreases |text| - k
    {
      var here := MatchHere(re, text[k..]);
      if here {
        return true;
      }
      if k == |text| || !Fits(c, text[k]) {
        return false;
      }
      k := k + 1;
    }
  }

  /** grep's match: 1 exactly when the text contains what the pattern means. */
  method Match(re: string, text: string) returns (found: bool)
    ensures found <==> Found(re, text)
  {
    hide Here, Items;
    if re != "" && re[0] == '^' {
      found := MatchHere(re[1..], text);
      return;
    }
    var i := 0;
    while true
      invariant 0 <= i <= |text|
      invariant forall k :: 0 <= k < i ==> !Here(Items(re), text[k..])
      decreases |text| - i
    {
      var here := MatchHere(re, text[i..]);
      if here {
        return true;
      }
      if i == |text| {
        return false;
      }
      i := i + 1;
    }
  }
}
