/** Glob patterns, in which `*` stands for any text: the greedy matcher against the
    meaning of a pattern. */
module Globs {
  import opened Prelude

  /** The meaning of a pattern, character by character. */
  ghost predicate Matches(pattern: string, text: string) {
    if pattern == "" then text == ""
    else if pattern[0] == '*' then exists k :: 0 <= k <= |text| && Matches(pattern[1..], text[k..])
    else text != "" && text[0] == pattern[0] && Matches(pattern[1..], text[1..])
  }

  predicate HasPrefix(text: string, part: string) {
    |part| <= |text| && text[..|part|] == part
  }

  predicate HasSuffix(text: string, part: string) {
    |part| <= |text| && text[|text| - |part|..] == part
  }

  /** The parts of a pattern between its stars. */
  function Split(pattern: string): (parts: seq<string>)
    ensures parts != []
    ensures |parts| == 1 ==> parts == [pattern] && '*' !in pattern
    ensures pattern == "*" ==> parts == ["", ""]
  {
    if pattern == "" then [""]
    else
      var rest := Split(pattern[1..]);
      assert pattern == [pattern[0]] + pattern[1..];
      if pattern[0] == '*' then [""] + rest else [[pattern[0]] + rest[0]] + rest[1..]
  }

  /** The text is made of the parts in order, with any text between two of them. */
  ghost predicate MadeOf(parts: seq<string>, text: string)
    requires parts != []
    decreases |parts|, 0
  {
    if |parts| == 1 then text == parts[0]
    else HasPrefix(text, parts[0]) && EndsAs(parts[1..], text[|parts[0]|..])
  }

  /** Some end of the text is made of the parts. */
  ghost predicate EndsAs(parts: seq<string>, text: string)
    requires parts != []
    decreases |parts|, 1
  {
    exists k :: 0 <= k <= |text| && MadeOf(parts, text[k..])
  }

  lemma MadeOfCharacter(c: char, first: string, rest: seq<string>, text: string)
    ensures MadeOf([[c] + first] + rest, text) <==> text != "" && text[0] == c && MadeOf([first] + rest, text[1..])
  {
    var parts, shorter := [[c] + first] + rest, [first] + rest;
    assert parts[1..] == rest && shorter[1..] == rest;
    if text != "" {
      assert text == [text[0]] + text[1..];
      if |parts| > 1 && |first| + 1 <= |text| {
        assert text[|first| + 1..] == text[1..][|first|..];
        assert text[..|first| + 1] == [text[0]] + text[1..][..|first|];
        assert ([c] + first)[0] == c && ([c] + first)[1..] == first;
      }
    }
    if |parts| == 1 && text == [c] + first {
      assert text[1..] == first;
    }
  }

  /** A text matches a pattern exactly when it is made of the pattern's parts. */
  lemma {:induction false} MatchesIffMadeOf(pattern: string, text: string)
    ensures Matches(pattern, text) <==> MadeOf(Split(pattern), text)
    decreases |pattern|
  {
    if pattern != "" {
      var rest := Split(pattern[1..]);
      if pattern[0] == '*' {
        var parts := [""] + rest;
        assert parts[1..] == rest && text[0..] == text && text[..0] == "";
        forall k | 0 <= k <= |text| ensures Matches(pattern[1..], text[k..]) <==> MadeOf(rest, text[k..]) {
          MatchesIffMadeOf(pattern[1..], text[k..]);
        }
      } else {
        assert [rest[0]] + rest[1..] == rest;
        MadeOfCharacter(pattern[0], rest[0], rest[1..], text);
        if text != "" {
          MatchesIffMadeOf(pattern[1..], text[1..]);
        }
      }
    }
  }

  /** The parts occur in the text one behind the other. */
  ghost predicate InOrder(parts: seq<string>, text: string) {
    parts == [] ||
    exists k :: 0 <= k <= |text| && HasPrefix(text[k..], parts[0]) && InOrder(parts[1..], text[k + |parts[0]|..])
  }

  lemma {:induction false} MoreTextKeepsOrder(parts: seq<string>, text: string, j: nat)
    requires j <= |text| && InOrder(parts, text[j..])
    ensures InOrder(parts, text)
  {
    if parts != [] {
      var k :| 0 <= k <= |text[j..]| && HasPrefix(text[j..][k..], parts[0])
        && InOrder(parts[1..], text[j..][k + |parts[0]|..]);
      assert text[j..][k..] == text[j + k..];
      assert text[j..][k + |parts[0]|..] == text[j + k + |parts[0]|..];
    }
  }

  /** Taking the leftmost occurrence of a part is as good as any other. */
  lemma LeftmostIsBest(part: string, rest: seq<string>, text: string, i: nat)
    requires i <= |text| && HasPrefix(text[i..], part)
    requires forall k :: 0 <= k < i ==> !HasPrefix(text[k..], part)
    ensures InOrder([part] + rest, text) <==> InOrder(rest, text[i + |part|..])
  {
    hide InOrder;
    InOrderSomewhere(part, rest, text);
    if InOrder(rest, text[i + |part|..]) {
      assert InOrderAt(part, rest, text, i);
    }
    if k: nat :| InOrderAt(part, rest, text, k) {
      assert i <= k;
      assert text[i + |part|..][k - i..] == text[k + |part|..];
      MoreTextKeepsOrder(rest, text[i + |part|..], k - i);
    }
  }

  lemma SuffixOfSuffix(text: string, k: nat, last: string)
    requires k <= |text|
    ensures HasSuffix(text[k..], last) <==> HasSuffix(text, last) && k + |last| <= |text|
  {
    if k + |last| <= |text| {
      assert text[k..][|text[k..]| - |last|..] == text[|text| - |last|..];
    }
  }

  lemma SuffixAsEnd(last: string, text: string)
    ensures EndsAs([last], text) <==> HasSuffix(text, last)
  {
    if EndsAs([last], text) {
      var k :| 0 <= k <= |text| && MadeOf([last], text[k..]);
      assert k == |text| - |last|;
    }
    if HasSuffix(text, last) {
      assert MadeOf([last], text[|text| - |last|..]);
    }
  }

  /** The body of a text, before its suffix. */
  function Body(text: string, last: string): string
    requires HasSuffix(text, last)
  {
    text[..|text| - |last|]
  }

  /** The parts occur in order, the first of them at position `k`. */
  ghost predicate InOrderAt(part: string, rest: seq<string>, text: string, k: nat) {
    k <= |text| && HasPrefix(text[k..], part) && InOrder(rest, text[k + |part|..])
  }

  lemma BodyFrom(text: string, last: string, n: nat)
    requires n <= |text| && HasSuffix(text[n..], last)
    ensures HasSuffix(text, last) && n <= |Body(text, last)| && Body(text, last)[n..] == Body(text[n..], last)
  {
    SuffixOfSuffix(text, n, last);
  }

  /** One middle part taken at position `k`, with the suffix still to come. */
  lemma MiddleStep(part: string, rest: seq<string>, last: string, text: string, k: nat)
    requires k <= |text|
    requires k + |part| <= |text| ==> var t := text[k + |part|..];
               (EndsAs(rest + [last], t) <==> HasSuffix(t, last) && InOrder(rest, Body(t, last)))
    ensures MadeOf([part] + rest + [last], text[k..]) <==>
            HasSuffix(text, last) && InOrderAt(part, rest, Body(text, last), k)
  {
    hide EndsAs, InOrder;
    var parts := [part] + rest + [last];
    assert parts[0] == part && parts[1..] == rest + [last];
    var t := text[k..];
    var n := k + |part|;
    if n <= |text| {
      assert t[|part|..] == text[n..];
      SuffixOfSuffix(text, n, last);
      if HasSuffix(text[n..], last) {
        BodyFrom(text, last, n);
        assert Body(text, last)[k..][..|part|] == t[..|part|];
      }
    }
  }

  /** Text that ends as middle parts and a last one: the last is a suffix, and the middle
      parts occur in order before it. */
  lemma {:induction false} EndsAsIsOrder(middle: seq<string>, last: string, text: string)
    ensures EndsAs(middle + [last], text) <==> HasSuffix(text, last) && InOrder(middle, Body(text, last))
    decreases |middle|
  {
    if middle == [] {
      assert middle + [last] == [last];
      SuffixAsEnd(last, text);
    } else {
      var part, rest := middle[0], middle[1..];
      assert middle == [part] + rest;
      forall k: nat | k <= |text|
        ensures MadeOf([part] + rest + [last], text[k..]) <==>
                HasSuffix(text, last) && InOrderAt(part, rest, Body(text, last), k)
      {
        if k + |part| <= |text| {
          EndsAsIsOrder(rest, last, text[k + |part|..]);
        }
        MiddleStep(part, rest, last, text, k);
      }
      SomewhereInOrder(part, rest, last, text);
    }
  }

  lemma SomewhereInOrder(part: string, rest: seq<string>, last: string, text: string)
    requires forall k: nat :: k <= |text| ==>
               (MadeOf([part] + rest + [last], text[k..]) <==>
                 HasSuffix(text, last) && InOrderAt(part, rest, Body(text, last), k))
    ensures EndsAs([part] + rest + [last], text) <==> HasSuffix(text, last) && InOrder([part] + rest, Body(text, last))
  {
    hide MadeOf, HasPrefix, InOrder, InOrderAt, EndsAs;
    var parts := [part] + rest + [last];
    EndsAsSomewhere(parts, text);
    if HasSuffix(text, last) {
      InOrderSomewhere(part, rest, Body(text, last));
      if k: nat :| InOrderAt(part, rest, Body(text, last), k) {
        PositionInText(part, rest, text, last, k);
        assert MadeOf(parts, text[k..]);
      }
    }
  }

  lemma PositionInText(part: string, rest: seq<string>, text: string, last: string, k: nat)
    requires HasSuffix(text, last) && InOrderAt(part, rest, Body(text, last), k)
    ensures k <= |text|
  {
  }

  lemma EndsAsSomewhere(parts: seq<string>, text: string)
    requires parts != []
    ensures EndsAs(parts, text) <==> exists k: nat :: k <= |text| && MadeOf(parts, text[k..])
  {
  }

  lemma InOrderSomewhere(part: string, rest: seq<string>, text: string)
    ensures InOrder([part] + rest, text) <==> exists k: nat :: InOrderAt(part, rest, text, k)
  {
    var parts := [part] + rest;
    assert parts[0] == part && parts[1..] == rest;
    if InOrder(parts, text) {
      var k :| 0 <= k <= |text| && HasPrefix(text[k..], part) && InOrder(rest, text[k + |part|..]);
      assert InOrderAt(part, rest, text, k);
    }
  }

  /** The leftmost occurrence of a part. */
  /** `r` is where the part first occurs, if it does. */
  ghost predicate IsLeftmost(text: string, part: string, r: Option<nat>) {
    match r
    case Some(i) =>
      i <= |text| && HasPrefix(text[i..], part) && forall k :: 0 <= k < i ==> !HasPrefix(text[k..], part)
    case None => forall k :: 0 <= k <= |text| ==> !HasPrefix(text[k..], part)
  }

  /** One middle part taken where it first occurs, or refused as it does not. */
  lemma TakeLeftmost(parts: seq<string>, i: nat, text: string, r: Option<nat>)
    requires i < |parts| && IsLeftmost(text, parts[i], r)
    ensures r.None? ==> !InOrder(parts[i..], text)
    ensures r.Some? ==>
              && r.value + |parts[i]| <= |text|
              && (InOrder(parts[i..], text) <==> InOrder(parts[i + 1..], text[r.value + |parts[i]|..]))
  {
    hide InOrder;
    assert parts[i..] == [parts[i]] + parts[i + 1..];
    match r {
      case Some(k) => LeftmostIsBest(parts[i], parts[i + 1..], text, k);
      case None => InOrderSomewhere(parts[i], parts[i + 1..], text);
    }
  }

  lemma EmptyIsLeftmost(text: string)
    ensures IsLeftmost(text, "", Some(0)) && text[0 + |""|..] == text
  {
  }

  lemma NoPartLeft(parts: seq<string>, text: string)
    ensures parts[0..] == parts && InOrder(parts[|parts|..], text)
  {
  }

  method Find(text: string, part: string) returns (r: Option<nat>)
    ensures IsLeftmost(text, part, r)
  {
    for i := 0 to |text| + 1
      invariant forall k :: 0 <= k < i ==> !HasPrefix(text[k..], part)
    {
      if HasPrefix(text[i..], part) {
        return Some(i);
      }
    }
    r := None;
  }

  /** The middle parts, each taken where it first occurs in what remains. */
  method MatchMiddle(parts: seq<string>, text: string) returns (found: bool)
    ensures found <==> InOrder(parts, text)
  {
    hide InOrder, IsLeftmost;
    var remaining := text;
    NoPartLeft(parts, text);
    for i := 0 to |parts|
      invariant InOrder(parts[i..], remaining) <==> InOrder(parts, text)
    {
      if parts[i] != "" {
        var idx := Find(remaining, parts[i]);
        TakeLeftmost(parts, i, remaining, idx);
        if idx.None? {
          return false;
        }
        remaining := remaining[idx.value + |parts[i]|..];
      } else {
        EmptyIsLeftmost(remaining);
        TakeLeftmost(parts, i, remaining, Some(0));
      }
    }
    NoPartLeft(parts, remaining);
    found := true;
  }

  /** Prefix, suffix, then the middle parts from the left: it accepts exactly the texts
      that match the pattern. */
  method GlobMatch(pattern: string, text: string) returns (r: bool)
    ensures r <==> Matches(pattern, text)
  {
    hide Split, MadeOf, EndsAs, InOrder, Matches;
    MatchesIffMadeOf(pattern, text);
    var parts := Split(pattern);
    if pattern == "*" {
      StarMatchesAll(text);
      return true;
    }
    if |parts| == 1 {
      OnePartIsWhole(parts, text);
      return pattern == text;
    }
    var first, middle, last := parts[0], parts[1..|parts| - 1], parts[|parts| - 1];
    assert parts == [first] + middle + [last];
    PartsApart(first, middle, last, text);
    var remaining := text;
    if first != "" {
      if !HasPrefix(remaining, first) {
        return false;
      }
      remaining := remaining[|first|..];
    }
    assert HasPrefix(text, first) && remaining == text[|first|..];
    var body := remaining;
    if last != "" {
      if !HasSuffix(remaining, last) {
        return false;
      }
      body := Body(remaining, last);
    }
    assert HasSuffix(remaining, last) && body == Body(remaining, last);
    r := MatchMiddle(middle, body);
  }

  lemma StarMatchesAll(text: string)
    ensures MadeOf(["", ""], text)
  {
    assert text[|text|..] == "" && text[0..] == text;
    assert ["", ""][1..] == [""];
    assert MadeOf([""], text[|text|..]);
    assert EndsAs([""], text);
  }

  lemma OnePartIsWhole(parts: seq<string>, text: string)
    requires |parts| == 1
    ensures MadeOf(parts, text) <==> text == parts[0]
  {
  }

  lemma PartsApart(first: string, middle: seq<string>, last: string, text: string)
    ensures MadeOf([first] + middle + [last], text) <==>
            && HasPrefix(text, first) && HasSuffix(text[|first|..], last)
            && InOrder(middle, Body(text[|first|..], last))
  {
    var parts := [first] + middle + [last];
    assert parts[0] == first && parts[1..] == middle + [last];
    if HasPrefix(text, first) {
      EndsAsIsOrder(middle, last, text[|first|..]);
    }
  }
}
