/** The regular expression matcher against the language a pattern stands for. */
module Regex {
  /** One character, or a run of it; the character '.' stands for any. */
  datatype Item = One(c: char) | Star(c: char) | Plus(c: char) | Opt(c: char)

  /** A pattern's items, and whether a closing '$' ties them to the end of the text. */
  datatype Pattern = Pattern(items: seq<Item>, toEnd: bool)

  function Parse(r: string): Pattern {
    if r == "" then Pattern([], false)
    else if r == "$" then Pattern([], true)
    else
      var item := FirstItem(r);
      var rest := Parse(r[Width(r)..]);
      Pattern([item] + rest.items, rest.toEnd)
  }

  /** How many characters of the pattern its first item takes. */
  function Width(r: string): (n: nat)
    requires r != ""
    ensures 0 < n <= |r|
  {
    if |r| >= 2 && (r[1] == '*' || r[1] == '+' || r[1] == '?') then 2 else 1
  }

  function FirstItem(r: string): Item
    requires r != ""
  {
    if |r| >= 2 && r[1] == '*' then Star(r[0])
    else if |r| >= 2 && r[1] == '+' then Plus(r[0])
    else if |r| >= 2 && r[1] == '?' then Opt(r[0])
    else One(r[0])
  }

  predicate Fits(c: char, x: char) {
    c == '.' || c == x
  }

  predicate AllFit(c: char, s: string) {
    forall x <- s :: Fits(c, x)
  }

  /** The strings one item stands for. */
  predicate Means(item: Item, s: string) {
    match item
    case One(c) => |s| == 1 && Fits(c, s[0])
    case Star(c) => AllFit(c, s)
    case Plus(c) => s != "" && AllFit(c, s)
    case Opt(c) => s == "" || (|s| == 1 && Fits(c, s[0]))
  }

  /** The language of a sequence of items: concatenations of strings of its items in turn. */
  ghost predicate InLanguage(items: seq<Item>, s: string)
    decreases |items|
  {
    if items == [] then s == ""
    else exists k :: 0 <= k <= |s| && Means(items[0], s[..k]) && InLanguage(items[1..], s[k..])
  }

  /** Some beginning of the text, the whole of it if the pattern ends in '$', belongs to the pattern's language. */
  ghost predicate Accepts(p: Pattern, text: string) {
    exists n :: 0 <= n <= |text| && InLanguage(p.items, text[..n]) && (p.toEnd ==> n == |text|)
  }

  lemma AcceptsNothing(toEnd: bool, text: string)
    ensures Accepts(Pattern([], toEnd), text) <==> (toEnd ==> text == "")
  {
    if toEnd ==> text == "" {
      assert text[..0] == "";
      assert InLanguage([], text[..0]);
    }
  }

  /** A pattern accepts a text exactly when its first item takes some beginning and the rest accepts what follows. */
  lemma AcceptsFirst(item: Item, rest: Pattern, text: string)
    ensures
      Accepts(Pattern([item] + rest.items, rest.toEnd), text) <==>
      exists k :: 0 <= k <= |text| && Means(item, text[..k]) && Accepts(rest, text[k..])
  {
    var items := [item] + rest.items;
    assert items[0] == item && items[1..] == rest.items;
    if Accepts(Pattern(items, rest.toEnd), text) {
      var n :| 0 <= n <= |text| && InLanguage(items, text[..n]) && (rest.toEnd ==> n == |text|);
      var k :| 0 <= k <= |text[..n]| && Means(items[0], text[..n][..k]) && InLanguage(items[1..], text[..n][k..]);
      assert text[..n][..k] == text[..k] && text[..n][k..] == text[k..][..n - k];
    }
    if k :| 0 <= k <= |text| && Means(item, text[..k]) && Accepts(rest, text[k..]) {
      var m :| 0 <= m <= |text[k..]| && InLanguage(rest.items, text[k..][..m]) && (rest.toEnd ==> m == |text[k..]|);
      var n := k + m;
      assert text[..n][..k] == text[..k] && text[..n][k..] == text[k..][..m];
    }
  }

  /** A starred item takes nothing, or one fitting character and then again. */
  lemma AcceptsStar(c: char, rest: Pattern, text: string)
    ensures
      Accepts(Pattern([Star(c)] + rest.items, rest.toEnd), text) <==>
      Accepts(rest, text) || (text != "" && Fits(c, text[0]) && Accepts(Pattern([Star(c)] + rest.items, rest.toEnd), text[1..]))
  {
    hide Accepts;
    AcceptsFirst(Star(c), rest, text);
    if Accepts(rest, text) {
      assert text[..0] == "" && text[0..] == text;
      assert Means(Star(c), text[..0]);
    }
    if text != "" {
      AcceptsFirst(Star(c), rest, text[1..]);
      if Fits(c, text[0]) {
        if k :| 0 <= k <= |text[1..]| && Means(Star(c), text[1..][..k]) && Accepts(rest, text[1..][k..]) {
          assert text[..k + 1] == [text[0]] + text[1..][..k] && text[1..][k..] == text[k + 1..];
        }
      }
      if k :| 0 < k <= |text| && Means(Star(c), text[..k]) && Accepts(rest, text[k..]) {
        assert text[..k] == [text[0]] + text[1..][..k - 1] && text[1..][k - 1..] == text[k..];
        assert text[0] in text[..k];
      }
    }
    if k :| 0 <= k <= |text| && Means(Star(c), text[..k]) && Accepts(rest, text[k..]) {
      assert k == 0 ==> text[k..] == text;
    }
  }

  lemma AcceptsPlus(c: char, rest: Pattern, text: string)
    ensures
      Accepts(Pattern([Plus(c)] + rest.items, rest.toEnd), text) <==>
      text != "" && Fits(c, text[0]) && Accepts(Pattern([Star(c)] + rest.items, rest.toEnd), text[1..])
  {
    hide Accepts;
    AcceptsFirst(Plus(c), rest, text);
    if k :| 0 <= k <= |text| && Means(Plus(c), text[..k]) && Accepts(rest, text[k..]) {
      AcceptsFirst(Star(c), rest, text[1..]);
      assert text[..k] == [text[0]] + text[1..][..k - 1] && text[1..][k - 1..] == text[k..];
      assert text[0] in text[..k];
    }
    if text != "" && Fits(c, text[0]) {
      AcceptsFirst(Star(c), rest, text[1..]);
      if k :| 0 <= k <= |text[1..]| && Means(Star(c), text[1..][..k]) && Accepts(rest, text[1..][k..]) {
        assert text[..k + 1] == [text[0]] + text[1..][..k] && text[1..][k..] == text[k + 1..];
      }
    }
  }

  lemma AcceptsOne(c: char, rest: Pattern, text: string)
    ensures
      Accepts(Pattern([One(c)] + rest.items, rest.toEnd), text) <==>
      text != "" && Fits(c, text[0]) && Accepts(rest, text[1..])
    ensures
      Accepts(Pattern([Opt(c)] + rest.items, rest.toEnd), text) <==>
      Accepts(rest, text) || (text != "" && Fits(c, text[0]) && Accepts(rest, text[1..]))
  {
    hide Accepts;
    AcceptsFirst(One(c), rest, text);
    AcceptsFirst(Opt(c), rest, text);
    assert text[..0] == "" && text[0..] == text;
    if text != "" {
      assert text[..1] == [text[0]];
      assert Means(One(c), text[..1]) <==> Fits(c, text[0]);
      assert Means(Opt(c), text[..1]) <==> Fits(c, text[0]);
    }
    assert Means(Opt(c), text[..0]);
  }

  // The matcher.

  /** regex_match_star: tries the rest of the pattern after ever more fitting characters. */
  method MatchStar(c: char, regex: string, text: string) returns (m: bool)
    ensures m <==> Accepts(Pattern([Star(c)] + Parse(regex).items, Parse(regex).toEnd), text)
    decreases |regex|, 1
  {
    hide Accepts;
    ghost var rest := Parse(regex);
    ghost var star := Pattern([Star(c)] + rest.items, rest.toEnd);
    var i := 0;
    assert text[0..] == text;
    while true
      invariant i <= |text| && (Accepts(star, text) <==> Accepts(star, text[i..]))
      decreases |text| - i
    {
      AcceptsStar(c, rest, text[i..]);
      m := MatchHere(regex, text[i..]);
      if m {
        return;
      }
      if i == |text| || !Fits(c, text[i]) {
        return;
      }
      assert text[i..][1..] == text[i + 1..];
      i := i + 1;
    }
  }

  /** regex_match_plus. */
  method MatchPlus(c: char, regex: string, text: string) returns (m: bool)
    ensures m <==> Accepts(Pattern([Plus(c)] + Parse(regex).items, Parse(regex).toEnd), text)
    decreases |regex|, 1
  {
    hide Accepts;
    ghost var rest := Parse(regex);
    ghost var star := Pattern([Star(c)] + rest.items, rest.toEnd);
    AcceptsPlus(c, rest, text);
    var i := 0;
    m := false;
    assert text[0..] == text;
    while i < |text| && Fits(c, text[i])
      invariant i <= |text|
      invariant i == 0 || (!Accepts(rest, text[i..]) && (Accepts(star, text[1..]) <==> Accepts(star, text[i..])) && Fits(c, text[0]))
      decreases |text| - i
    {
      if i > 0 {
        AcceptsStar(c, rest, text[i..]);
        assert text[i..][1..] == text[i + 1..];
      }
      i := i + 1;
      AcceptsStar(c, rest, text[i..]);
      m := MatchHere(regex, text[i..]);
      if m {
        return;
      }
    }
    if i > 0 {
      AcceptsStar(c, rest, text[i..]);
    }
  }

  /** regex_match_here: the pattern accepts the text from its first character on. */
  method MatchHere(regex: string, text: string) returns (m: bool)
    ensures m <==> Accepts(Parse(regex), text)
    decreases |regex|, 0
  {
    hide Accepts;
    if regex == "" {
      AcceptsNothing(false, text);
      return true;
    }
    if regex == "$" {
      AcceptsNothing(true, text);
      return text == "";
    }
    ghost var rest := Parse(regex[Width(regex)..]);
    if |regex| >= 2 && regex[1] == '*' {
      m := MatchStar(regex[0], regex[2..], text);
      return;
    }
    if |regex| >= 2 && regex[1] == '+' {
      m := MatchPlus(regex[0], regex[2..], text);
      return;
    }
    AcceptsOne(regex[0], rest, text);
    if |regex| >= 2 && regex[1] == '?' {
      m := MatchHere(regex[2..], text);
      if m {
        return;
      }
      if text != "" && Fits(regex[0], text[0]) {
        m := MatchHere(regex[2..], text[1..]);
        return;
      }
      return false;
    }
    if text != "" && Fits(regex[0], text[0]) {
      m := MatchHere(regex[1..], text[1..]);
      return;
    }
    m := false;
  }

  /** A leading '^' ties the pattern to the start of the text. */
  function Body(regex: string): string {
    if regex != "" && regex[0] == '^' then regex[1..] else regex
  }

  /** The pattern accepts from the place i on, which is 0 if it is tied to the start. */
  ghost predicate MatchesAt(regex: string, text: string, i: nat)
    requires i <= |text|
  {
    Accepts(Parse(Body(regex)), text[i..]) && (regex != "" && regex[0] == '^' ==> i == 0)
  }

  /** regex_match: some place in the text starts a match. */
  method Match(regex: string, text: string) returns (m: bool)
    ensures m <==> exists i :: 0 <= i <= |text| && MatchesAt(regex, text, i)
  {
    hide Accepts, Parse;
    assert text[0..] == text;
    if regex != "" && regex[0] == '^' {
      m := MatchHere(regex[1..], text);
      assert m ==> MatchesAt(regex, text, 0);
      return;
    }
    var i := 0;
    while true
      invariant i <= |text| && forall j | 0 <= j < i :: !MatchesAt(regex, text, j)
      decreases |text| - i
    {
      m := MatchHere(regex, text[i..]);
      if m {
        assert MatchesAt(regex, text, i);
        return;
      }
      if i == |text| {
        return;
      }
      i := i + 1;
    }
  }

  /** regex_find: whether there is a match, and the first place where one starts, or -1. */
  method Find(regex: string, text: string) returns (matched: bool, start: int)
    ensures matched <==> exists i :: 0 <= i <= |text| && MatchesAt(regex, text, i)
    ensures matched ==> 0 <= start <= |text| && MatchesAt(regex, text, start)
    ensures matched ==> forall j | 0 <= j < start :: !MatchesAt(regex, text, j)
    ensures !matched ==> start == -1
  {
    hide Accepts, Parse;
    var anchored := regex != "" && regex[0] == '^';
    var r := Body(regex);
    var i := 0;
    assert text[0..] == text;
    while true
      invariant i <= |text| && forall j | 0 <= j < i :: !MatchesAt(regex, text, j)
      invariant anchored ==> i == 0
      decreases |text| - i
    {
      var m := MatchHere(r, text[i..]);
      if m {
        assert MatchesAt(regex, text, i);
        return true, i;
      }
      if anchored || i == |text| {
        return false, -1;
      }
      i := i + 1;
    }
  }

  /** What a place that starts a match says about the text: a string of the language stands there, and ends the text if
      the pattern says so. */
  lemma MatchesAtMeans(regex: string, text: string, i: nat)
    requires i <= |text|
    ensures
      MatchesAt(regex, text, i) <==>
      (exists j :: i <= j <= |text| && InLanguage(Parse(Body(regex)).items, text[i..j]) && (Parse(Body(regex)).toEnd ==> j == |text|))
      && (regex != "" && regex[0] == '^' ==> i == 0)
  {
    hide Parse;
    var p := Parse(Body(regex));
    if n :| 0 <= n <= |text[i..]| && InLanguage(p.items, text[i..][..n]) && (p.toEnd ==> n == |text[i..]|) {
      assert text[i..][..n] == text[i..i + n];
    }
    if j :| i <= j <= |text| && InLanguage(p.items, text[i..j]) && (p.toEnd ==> j == |text|) {
      assert text[i..][..j - i] == text[i..j];
    }
  }
}
