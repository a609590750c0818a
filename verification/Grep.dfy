/** grep's regular expressions: match, matchhere and matchstar against the language a pattern denotes.
    C strings are sequences without their final NUL. */
module Grep {
  /** What a pattern is made of. */
  datatype Item = One(c: char) | Star(c: char) | End

  predicate Accepts(c: char, x: char) {
    c == '.' || x == c
  }

  /** A pattern as items: a character before a star repeats, also when it is '*', '^' or '$'; '$' means
      the end of the text only as the last character. */
  function Items(re: string): (items: seq<Item>)
    ensures forall j :: 0 <= j < |items| - 1 ==> !items[j].End?
    ensures |items| <= |re| && (items == [] <==> re == [])
  {
    if re == [] then []
    else if |re| >= 2 && re[1] == '*' then [Star(re[0])] + Items(re[2..])
    else if re == "$" then [End]
    else [One(re[0])] + Items(re[1..])
  }

  /** The texts that a single item stands for. */
  ghost predicate Fits(item: Item, piece: string) {
    match item
    case One(c) => |piece| == 1 && Accepts(c, piece[0])
    case Star(c) => forall j :: 0 <= j < |piece| ==> Accepts(c, piece[j])
    case End => piece == []
  }

  ghost function Concat(pieces: seq<string>): string {
    if pieces == [] then [] else pieces[0] + Concat(pieces[1..])
  }

  /** The pieces spell s, one for each item. */
  ghost predicate Spells(items: seq<Item>, pieces: seq<string>, s: string) {
    |pieces| == |items| && Concat(pieces) == s && forall j :: 0 <= j < |items| ==> Fits(items[j], pieces[j])
  }

  ghost predicate AtEnd(items: seq<Item>) {
    items != [] && items[|items| - 1].End?
  }

  /** The first k characters of text are in the language of the items; '$' asks for all of them. */
  ghost predicate MatchesPrefix(items: seq<Item>, text: string, k: nat) {
    k <= |text| && (AtEnd(items) ==> k == |text|) && exists pieces :: Spells(items, pieces, text[..k])
  }

  /** A pattern matches at the beginning of a text, */
  ghost predicate MatchesHere(re: string, text: string) {
    exists k :: MatchesPrefix(Items(re), text, k)
  }

  /** and it matches a text when it matches at some place in it, or at the beginning after '^'. */
  ghost predicate Matches(re: string, text: string) {
    if re != [] && re[0] == '^' then MatchesHere(re[1..], text)
    else exists i :: 0 <= i <= |text| && MatchesHere(re, text[i..])
  }

  /** The same by recursion on the items. */
  ghost predicate Leads(items: seq<Item>, text: string)
    decreases |items|
  {
    items == [] ||
    match items[0]
    case End => text == []
    case One(c) => text != [] && Accepts(c, text[0]) && Leads(items[1..], text[1..])
    case Star(c) => exists n :: 0 <= n <= |text| && Repeats(c, text, n) && Leads(items[1..], text[n..])
  }

  ghost predicate Repeats(c: char, text: string, n: nat)
    requires n <= |text|
  {
    forall j :: 0 <= j < n ==> Accepts(c, text[j])
  }

  ghost predicate EndsOnlyLast(items: seq<Item>) {
    forall j :: 0 <= j < |items| - 1 ==> !items[j].End?
  }

  /** Put a piece in front. */
  lemma PrependPiece(items: seq<Item>, text: string, n: nat, k: nat)
    requires items != [] && n <= |text| && Fits(items[0], text[..n]) && MatchesPrefix(items[1..], text[n..], k)
    requires AtEnd(items) && |items| == 1 ==> n + k == |text|
    ensures MatchesPrefix(items, text, n + k)
  {
    var rest :| Spells(items[1..], rest, text[n..][..k]);
    var pieces := [text[..n]] + rest;
    assert pieces[1..] == rest;
    assert text[..n + k] == text[..n] + text[n..][..k];
    forall j | 0 <= j < |items| ensures Fits(items[j], pieces[j]) {
      assert j > 0 ==> items[j] == items[1..][j - 1] && pieces[j] == rest[j - 1];
    }
    assert Spells(items, pieces, text[..n + k]);
  }

  /** Take the first piece away. */
  lemma DropPiece(items: seq<Item>, text: string, k: nat) returns (n: nat)
    requires items != [] && MatchesPrefix(items, text, k)
    ensures n <= k && Fits(items[0], text[..n]) && MatchesPrefix(items[1..], text[n..], k - n)
  {
    var pieces :| Spells(items, pieces, text[..k]);
    n := |pieces[0]|;
    assert text[..k] == pieces[0] + Concat(pieces[1..]);
    assert text[..n] == text[..k][..n] == pieces[0];
    assert text[n..][..k - n] == text[..k][n..] == Concat(pieces[1..]);
    assert Spells(items[1..], pieces[1..], text[n..][..k - n]);
  }

  lemma NothingLeft(items: seq<Item>, text: string)
    requires items == [] || (items == [End] && text == [])
    ensures MatchesPrefix(items, text, 0)
  {
    var none: seq<string> := if items == [] then [] else [""];
    assert items != [] ==> none[1..] == [] && Fits(items[0], none[0]);
    assert Concat(none) == text[..0];
    assert Spells(items, none, text[..0]);
  }

  lemma {:induction false} LeadsMatches(items: seq<Item>, text: string) returns (k: nat)
    requires Leads(items, text) && EndsOnlyLast(items)
    ensures MatchesPrefix(items, text, k)
    decreases |items|
  {
    hide Spells;
    if items == [] || items[0].End? {
      k := 0;
      NothingLeft(items, text);
    } else {
      var n := 1;
      if items[0].Star? {
        n :| 0 <= n <= |text| && Repeats(items[0].c, text, n) && Leads(items[1..], text[n..]);
      }
      k := LeadsMatches(items[1..], text[n..]);
      PrependPiece(items, text, n, k);
      k := n + k;
    }
  }

  lemma {:induction false} MatchesLeads(items: seq<Item>, text: string, k: nat)
    requires MatchesPrefix(items, text, k) && EndsOnlyLast(items)
    ensures Leads(items, text)
    decreases |items|
  {
    if items != [] {
      var n := DropPiece(items, text, k);
      MatchesLeads(items[1..], text[n..], k - n);
      assert items[0].Star? ==> Repeats(items[0].c, text, n) by {
        assert forall j :: 0 <= j < n ==> text[..n][j] == text[j];
      }
    }
  }

  lemma HereIff(re: string, text: string)
    ensures Leads(Items(re), text) <==> MatchesHere(re, text)
  {
    if Leads(Items(re), text) {
      var k := LeadsMatches(Items(re), text);
    }
    if k :| MatchesPrefix(Items(re), text, k) {
      MatchesLeads(Items(re), text, k);
    }
  }

  method Match(re: string, text: string) returns (r: bool)
    ensures r <==> Matches(re, text)
  {
    if re != [] && re[0] == '^' {
      r := Matchhere(re[1..], text);
      HereIff(re[1..], text);
      return;
    }
    var i := 0;
    while true
      invariant 0 <= i <= |text| && forall j :: 0 <= j < i ==> !MatchesHere(re, text[j..])
      decreases |text| - i
    {
      r := Matchhere(re, text[i..]);
      HereIff(re, text[i..]);
      if r {
        return true;
      }
      if i == |text| {
        return false;
      }
      i := i + 1;
    }
  }

  method Matchhere(re: string, text: string) returns (r: bool)
    ensures r <==> Leads(Items(re), text)
    decreases |re|, 0
  {
    if re == [] {
      return true;
    }
    if |re| > 1 && re[1] == '*' {
      r := Matchstar(re[0], re[2..], text);
      assert Items(re)[1..] == Items(re[2..]);
      return;
    }
    if re[0] == '$' && |re| == 1 {
      return text == [];
    }
    assert Items(re)[1..] == Items(re[1..]);
    if text != [] && (re[0] == '.' || re[0] == text[0]) {
      r := Matchhere(re[1..], text[1..]);
      return;
    }
    return false;
  }

  /** c*re at the beginning of text. */
  method Matchstar(c: char, re: string, text: string) returns (r: bool)
    ensures r <==> exists n :: 0 <= n <= |text| && Repeats(c, text, n) && Leads(Items(re), text[n..])
    decreases |re|, 1
  {
    var n := 0;
    while true
      invariant 0 <= n <= |text| && Repeats(c, text, n)
      invariant forall m :: 0 <= m < n ==> !Leads(Items(re), text[m..])
      decreases |text| - n
    {
      r := Matchhere(re, text[n..]);
      if r {
        return true;
      }
      if n == |text| || !(text[n] == c || c == '.') {
        return false;
      }
      n := n + 1;
    }
  }
}
