/**
 The cache keys of backend/cache.py: what make_cache_key builds, which calls share a key, and which
 keys a prefix invalidation reaches.  An argument is known by its identity and by the text str()
 gives for it.  The truncated MD5 of a long key is a parameter.
 */
module CacheKeys {
  import opened Options

  /** Python's None, or a value with its str() text. */
  datatype Arg = Null | Arg(identity: nat, text: string)

  datatype Keyword = Keyword(name: string, value: Arg)

  /** A call of a cached function: the decorator's prefix, the function's name, the arguments as written. */
  datatype Call = Call(prefix: string, name: string, args: seq<Arg>, kwargs: seq<Keyword>)

  const CACHE_PREFIX := "scf:cache:"
  const CACHE_VERSION := "v1"
  const LONGEST_PLAIN_KEY: nat := 200

  // ---------------------------------------------------------------------------
  // Sorting the keywords
  // ---------------------------------------------------------------------------

  /** Python's order on strings. */
  predicate Below(a: string, b: string) {
    b != "" && (a == "" || a[0] < b[0] || (a[0] == b[0] && Below(a[1..], b[1..])))
  }

  /** It goes by the first character in which two strings differ; a string comes before its continuations. */
  lemma {:induction false} BelowGoesByTheFirstDifference(common: string, a: string, b: string)
    requires a == "" || b == "" || a[0] != b[0]
    ensures Below(common + a, common + b) <==> b != "" && (a == "" || a[0] < b[0])
    decreases |common|
  {
    if common == "" {
      assert common + a == a && common + b == b;
    } else {
      assert (common + a)[0] == common[0] && (common + a)[1..] == common[1..] + a;
      assert (common + b)[0] == common[0] && (common + b)[1..] == common[1..] + b;
      BelowGoesByTheFirstDifference(common[1..], a, b);
    }
  }

  function Insert(keyword: Keyword, sorted: seq<Keyword>): seq<Keyword> {
    if sorted == [] || Below(keyword.name, sorted[0].name) then [keyword] + sorted
    else [sorted[0]] + Insert(keyword, sorted[1..])
  }

  function SortByName(kwargs: seq<Keyword>): seq<Keyword> {
    if kwargs == [] then [] else Insert(kwargs[0], SortByName(kwargs[1..]))
  }

  predicate DistinctNames(kwargs: seq<Keyword>) {
    forall i, j :: 0 <= i < j < |kwargs| ==> kwargs[i].name != kwargs[j].name
  }

  predicate Ascending(kwargs: seq<Keyword>) {
    forall i, j :: 0 <= i < j < |kwargs| ==> Below(kwargs[i].name, kwargs[j].name)
  }

  lemma {:induction false} BelowIsStrictOrder(a: string, b: string, c: string)
    ensures !(Below(a, b) && Below(b, a))
    ensures a == b || Below(a, b) || Below(b, a)
    ensures Below(a, b) && Below(b, c) ==> Below(a, c)
    decreases |a| + |b| + |c|
  {
    if a != "" && b != "" {
      if a[0] == b[0] {
        var rest := if c == "" then "" else c[1..];
        BelowIsStrictOrder(a[1..], b[1..], rest);
        assert a == [a[0]] + a[1..] && b == [b[0]] + b[1..];
      }
    }
  }

  lemma {:induction false} InsertAdds(keyword: Keyword, sorted: seq<Keyword>)
    ensures multiset(Insert(keyword, sorted)) == multiset(sorted) + multiset{keyword}
    decreases |sorted|
  {
    if sorted != [] {
      assert sorted == [sorted[0]] + sorted[1..];
      InsertAdds(keyword, sorted[1..]);
    }
  }

  lemma FirstBelowAll(keyword: Keyword, sorted: seq<Keyword>)
    requires Ascending(sorted) && sorted != [] && Below(keyword.name, sorted[0].name)
    ensures Ascending([keyword] + sorted)
  {
    forall j | 0 < j < |sorted|
      ensures Below(keyword.name, sorted[j].name)
    {
      BelowIsStrictOrder(keyword.name, sorted[0].name, sorted[j].name);
    }
  }

  lemma {:induction false} InsertKeepsOrder(keyword: Keyword, sorted: seq<Keyword>)
    requires Ascending(sorted) && forall k :: k in sorted ==> k.name != keyword.name
    ensures Ascending(Insert(keyword, sorted))
    decreases |sorted|
  {
    if sorted != [] {
      BelowIsStrictOrder(keyword.name, sorted[0].name, "");
      if Below(keyword.name, sorted[0].name) {
        FirstBelowAll(keyword, sorted);
      } else {
        assert sorted[0] in sorted;
        InsertKeepsOrder(keyword, sorted[1..]);
        InsertAdds(keyword, sorted[1..]);
        forall k | k in Insert(keyword, sorted[1..])
          ensures Below(sorted[0].name, k.name)
        {
          assert k in multiset(Insert(keyword, sorted[1..]));
          assert k == keyword || k in sorted[1..];
        }
      }
    }
  }

  lemma {:induction false} SortSorts(kwargs: seq<Keyword>)
    requires DistinctNames(kwargs)
    ensures Ascending(SortByName(kwargs)) && multiset(SortByName(kwargs)) == multiset(kwargs)
    decreases |kwargs|
  {
    if kwargs != [] {
      var rest := kwargs[1..];
      SortSorts(rest);
      assert kwargs == [kwargs[0]] + rest;
      forall k | k in SortByName(rest)
        ensures k.name != kwargs[0].name
      {
        assert k in multiset(rest);
      }
      InsertKeepsOrder(kwargs[0], SortByName(rest));
      InsertAdds(kwargs[0], SortByName(rest));
    }
  }

  lemma FirstIsLeast(a: seq<Keyword>, k: Keyword)
    requires Ascending(a) && k in multiset(a)
    ensures k == a[0] || Below(a[0].name, k.name)
  {
    var i :| 0 <= i < |a| && a[i] == k;
    assert i > 0 ==> Below(a[0].name, a[i].name);
  }

  lemma WithoutFirst(a: seq<Keyword>)
    requires a != []
    ensures multiset(a[1..]) == multiset(a) - multiset{a[0]}
  {
    assert a == [a[0]] + a[1..];
  }

  lemma LeastIsUnique(a: seq<Keyword>, b: seq<Keyword>)
    requires Ascending(a) && Ascending(b) && a != [] && b != [] && a[0] in multiset(b) && b[0] in multiset(a)
    ensures a[0] == b[0]
  {
    FirstIsLeast(a, b[0]);
    FirstIsLeast(b, a[0]);
    BelowIsStrictOrder(a[0].name, b[0].name, "");
  }

  lemma {:induction false} AscendingIsUnique(a: seq<Keyword>, b: seq<Keyword>)
    requires Ascending(a) && Ascending(b) && multiset(a) == multiset(b)
    ensures a == b
    decreases |a|
  {
    assert |a| == |multiset(a)| == |multiset(b)| == |b|;
    if a != [] {
      assert a[0] in multiset(a) && b[0] in multiset(b);
      LeastIsUnique(a, b);
      WithoutFirst(a);
      WithoutFirst(b);
      AscendingIsUnique(a[1..], b[1..]);
      assert a == [a[0]] + a[1..] && b == [b[0]] + b[1..];
    }
  }

  // ---------------------------------------------------------------------------
  // The key
  // ---------------------------------------------------------------------------

  function ArgTexts(args: seq<Arg>): seq<string> {
    if args == [] then []
    else (if args[0].Null? then [] else [args[0].text]) + ArgTexts(args[1..])
  }

  function KeywordTexts(kwargs: seq<Keyword>): seq<string> {
    if kwargs == [] then []
    else
      (if kwargs[0].value.Null? then [] else [kwargs[0].name + "=" + kwargs[0].value.text]) + KeywordTexts(kwargs[1..])
  }

  function Join(parts: seq<string>): string {
    if parts == [] then "" else if |parts| == 1 then parts[0] else parts[0] + ":" + Join(parts[1..])
  }

  /** The wrapper's key prefix. */
  function FullPrefix(c: Call): string {
    if c.prefix != "" then c.prefix + ":" + c.name else c.name
  }

  function Stem(prefix: string): seq<string> {
    if prefix != "" then [CACHE_VERSION, prefix] else [CACHE_VERSION]
  }

  function Rest(c: Call): seq<string> {
    ArgTexts(c.args) + KeywordTexts(SortByName(c.kwargs))
  }

  function Joined(c: Call): string {
    Join(Stem(FullPrefix(c)) + Rest(c))
  }

  predicate Short(c: Call) {
    |Joined(c)| <= LONGEST_PLAIN_KEY
  }

  function Key(digest: string -> string, c: Call): string {
    if Short(c) then CACHE_PREFIX + Joined(c)
    else CACHE_PREFIX + FullPrefix(c) + ":" + digest(Joined(c))
  }

  /** The call passes a keyword that is also the key builder's own parameter. */
  predicate NamesPrefix(c: Call) {
    exists i :: 0 <= i < |c.kwargs| && c.kwargs[i].name == "prefix"
  }

  /** make_cache_key as the wrapper calls it: a second value for `prefix` is a TypeError. */
  function DefaultKey(digest: string -> string): Call -> Option<string> {
    (c: Call) => if NamesPrefix(c) then None else Some(Key(digest, c))
  }

  /** A call has no key exactly when one of its keywords is called `prefix`. */
  lemma KeyIsMissingExactlyWhen(digest: string -> string, c: Call)
    ensures DefaultKey(digest)(c).None? <==> exists k :: k in c.kwargs && k.name == "prefix"
    ensures DefaultKey(digest)(c).Some? ==> DefaultKey(digest)(c).value == Key(digest, c)
  {
    if k :| k in c.kwargs && k.name == "prefix" {
      var i :| 0 <= i < |c.kwargs| && c.kwargs[i] == k;
      assert c.kwargs[i].name == "prefix";
    }
  }

  lemma ArgTextsSplit(a: seq<Arg>, b: seq<Arg>)
    ensures ArgTexts(a + b) == ArgTexts(a) + ArgTexts(b)
    decreases |a|
  {
    if a == [] {
      assert a + b == b;
    } else {
      assert (a + b)[1..] == a[1..] + b;
      ArgTextsSplit(a[1..], b);
    }
  }

  lemma KeywordTextsSplit(a: seq<Keyword>, b: seq<Keyword>)
    ensures KeywordTexts(a + b) == KeywordTexts(a) + KeywordTexts(b)
    decreases |a|
  {
    if a == [] {
      assert a + b == b;
    } else {
      assert (a + b)[1..] == a[1..] + b;
      KeywordTextsSplit(a[1..], b);
    }
  }

  lemma OneMoreArg(args: seq<Arg>, i: nat)
    requires i < |args|
    ensures ArgTexts(args[..i + 1]) == ArgTexts(args[..i]) + if args[i].Null? then [] else [args[i].text]
  {
    ArgTextsSplit(args[..i], [args[i]]);
    assert args[..i + 1] == args[..i] + [args[i]];
  }

  lemma OneMoreKeyword(kwargs: seq<Keyword>, i: nat)
    requires i < |kwargs|
    ensures KeywordTexts(kwargs[..i + 1])
            == KeywordTexts(kwargs[..i])
               + if kwargs[i].value.Null? then [] else [kwargs[i].name + "=" + kwargs[i].value.text]
  {
    KeywordTextsSplit(kwargs[..i], [kwargs[i]]);
    assert kwargs[..i + 1] == kwargs[..i] + [kwargs[i]];
  }

  /** The loop over the positional arguments. */
  method AddPositional(start: seq<string>, args: seq<Arg>) returns (parts: seq<string>)
    ensures parts == start + ArgTexts(args)
  {
    parts := start;
    var i := 0;
    while i < |args|
      invariant 0 <= i <= |args|
      invariant parts == start + ArgTexts(args[..i])
    {
      OneMoreArg(args, i);
      if !args[i].Null? {
        parts := parts + [args[i].text];
      }
      i := i + 1;
    }
    assert args[..i] == args;
  }

  /** The loop over the keyword arguments, sorted by name. */
  method AddKeywords(start: seq<string>, kwargs: seq<Keyword>) returns (parts: seq<string>)
    ensures parts == start + KeywordTexts(SortByName(kwargs))
  {
    var sorted := SortByName(kwargs);
    parts := start;
    var i := 0;
    while i < |sorted|
      invariant 0 <= i <= |sorted|
      invariant parts == start + KeywordTexts(sorted[..i])
    {
      OneMoreKeyword(sorted, i);
      if !sorted[i].value.Null? {
        parts := parts + [sorted[i].name + "=" + sorted[i].value.text];
      }
      i := i + 1;
    }
    assert sorted[..i] == sorted;
  }

  /** The key of a call: its parts joined, or hashed when the joined text is too long; None is the TypeError. */
  method MakeCacheKey(digest: string -> string, c: Call) returns (key: Option<string>)
    ensures key == DefaultKey(digest)(c)
  {
    if exists i :: 0 <= i < |c.kwargs| && c.kwargs[i].name == "prefix" {
      return None;
    }
    var prefix := c.name;
    if c.prefix != "" {
      prefix := c.prefix + ":" + c.name;
    }
    var parts := AddPositional(Stem(prefix), c.args);
    parts := AddKeywords(parts, c.kwargs);
    assert parts == Stem(prefix) + Rest(c);
    var joined := Join(parts);
    if |joined| > LONGEST_PLAIN_KEY {
      key := Some(CACHE_PREFIX + prefix + ":" + digest(joined));
    } else {
      key := Some(CACHE_PREFIX + joined);
    }
  }

  /** Each part after a colon. */
  function Colons(parts: seq<string>): string {
    if parts == [] then "" else ":" + parts[0] + Colons(parts[1..])
  }

  lemma {:induction false} JoinIsColons(first: string, rest: seq<string>)
    ensures Join([first] + rest) == first + Colons(rest)
    decreases |rest|
  {
    assert ([first] + rest)[1..] == rest;
    if rest != [] {
      JoinIsColons(rest[0], rest[1..]);
      assert rest == [rest[0]] + rest[1..];
    }
  }

  /**
   The key spelled out.  Version, prefix, name and the parts of the arguments, all behind colons; and
   for more than 200 characters the prefix and the name with the digest of all that instead.
   */
  lemma KeySpelledOut(digest: string -> string, c: Call)
    requires c.name != ""
    ensures var own := (if c.prefix != "" then c.prefix + ":" else "") + c.name;
            var text := "v1:" + own + Colons(ArgTexts(c.args) + KeywordTexts(SortByName(c.kwargs)));
            Key(digest, c)
              == if |text| <= 200 then "scf:cache:" + text else "scf:cache:" + own + ":" + digest(text)
  {
    var own := (if c.prefix != "" then c.prefix + ":" else "") + c.name;
    assert "" + c.name == c.name;
    assert FullPrefix(c) == own;
    JoinedSpelledOut(own, Rest(c));
  }

  lemma JoinedSpelledOut(own: string, parts: seq<string>)
    requires own != ""
    ensures Join(Stem(own) + parts) == "v1:" + own + Colons(parts)
  {
    assert Stem(own) + parts == ["v1"] + ([own] + parts);
    JoinIsColons("v1", [own] + parts);
    assert ([own] + parts)[1..] == parts;
    assert "v1" + (":" + own + Colons(parts)) == "v1:" + own + Colons(parts);
  }

  /** The parts of arguments that are all there: their texts in order, and the texts behind their names. */
  lemma {:induction false} PartsInOrder(args: seq<Arg>, kwargs: seq<Keyword>)
    requires (forall a :: a in args ==> a.Arg?) && forall k :: k in kwargs ==> k.value.Arg?
    ensures ArgTexts(args) == seq(|args|, i requires 0 <= i < |args| => assert args[i] in args; args[i].text)
    ensures KeywordTexts(kwargs)
         == seq(|kwargs|, i requires 0 <= i < |kwargs| =>
                assert kwargs[i] in kwargs; kwargs[i].name + "=" + kwargs[i].value.text)
    decreases |args| + |kwargs|
  {
    if args != [] {
      assert args[0] in args && forall a :: a in args[1..] ==> a in args;
      PartsInOrder(args[1..], []);
    }
    if kwargs != [] {
      assert kwargs[0] in kwargs && forall k :: k in kwargs[1..] ==> k in kwargs;
      PartsInOrder([], kwargs[1..]);
    }
  }

  /** The order in which a caller writes the keywords does not matter. */
  lemma KeyIgnoresKeywordOrder(digest: string -> string, c: Call, d: Call)
    requires DistinctNames(c.kwargs) && DistinctNames(d.kwargs) && multiset(c.kwargs) == multiset(d.kwargs)
    requires c.(kwargs := []) == d.(kwargs := [])
    ensures Key(digest, c) == Key(digest, d)
  {
    SortSorts(c.kwargs);
    SortSorts(d.kwargs);
    AscendingIsUnique(SortByName(c.kwargs), SortByName(d.kwargs));
  }

  // ---------------------------------------------------------------------------
  // Which calls share a key
  // ---------------------------------------------------------------------------

  lemma KeyFromJoined(digest: string -> string, c: Call, d: Call)
    requires c.prefix == d.prefix && c.name == d.name && Joined(c) == Joined(d)
    ensures Key(digest, c) == Key(digest, d)
  {
  }

  /** A None among the positional arguments leaves no trace in the key. */
  lemma NoneIsInvisible(digest: string -> string, c: Call, before: seq<Arg>, after: seq<Arg>)
    ensures Key(digest, c.(args := before + [Null] + after)) == Key(digest, c.(args := before + after))
  {
    var with, without := c.(args := before + [Null] + after), c.(args := before + after);
    ArgTextsSplit(before + [Null], after);
    ArgTextsSplit(before, [Null]);
    ArgTextsSplit(before, after);
    assert ArgTexts([Null]) == [];
    assert ArgTexts(with.args) == ArgTexts(without.args);
    KeyFromJoined(digest, with, without);
  }

  lemma {:induction false} JoinPair(before: seq<string>, x: string, y: string, after: seq<string>)
    ensures Join(before + [x + ":" + y] + after) == Join(before + [x, y] + after)
    decreases |before|
  {
    var one, two := before + [x + ":" + y] + after, before + [x, y] + after;
    if before == [] {
      assert one == [x + ":" + y] + after && two == [x] + ([y] + after);
      assert one[1..] == after && two[1..] == [y] + after && ([y] + after)[1..] == after;
    } else {
      assert one[1..] == before[1..] + [x + ":" + y] + after && two[1..] == before[1..] + [x, y] + after;
      JoinPair(before[1..], x, y, after);
    }
  }

  /** An argument whose text contains a colon reads like two arguments. */
  lemma ColonReadsLikeTwo(
      digest: string -> string, c: Call, before: seq<Arg>, after: seq<Arg>, x: Arg, y: Arg, both: Arg)
    requires x.Arg? && y.Arg? && both.Arg? && both.text == x.text + ":" + y.text
    ensures Joined(c.(args := before + [both] + after)) == Joined(c.(args := before + [x, y] + after))
    ensures Key(digest, c.(args := before + [both] + after)) == Key(digest, c.(args := before + [x, y] + after))
  {
    var tail := ArgTexts(after) + KeywordTexts(SortByName(c.kwargs));
    var head := Stem(FullPrefix(c)) + ArgTexts(before);
    var one, two := c.(args := before + [both] + after), c.(args := before + [x, y] + after);
    PartsAround(c, before, [both], after);
    PartsAround(c, before, [x, y], after);
    TwoTexts(x, y);
    assert [both][1..] == [] && ArgTexts([both]) == [x.text + ":" + y.text];
    JoinPair(head, x.text, y.text, tail);
    KeyFromJoined(digest, one, two);
  }

  lemma PartsAround(c: Call, before: seq<Arg>, middle: seq<Arg>, after: seq<Arg>)
    ensures Joined(c.(args := before + middle + after))
            == Join(Stem(FullPrefix(c)) + ArgTexts(before) + ArgTexts(middle)
                    + (ArgTexts(after) + KeywordTexts(SortByName(c.kwargs))))
  {
    ArgTextsSplit(before + middle, after);
    ArgTextsSplit(before, middle);
    Regroup(Stem(FullPrefix(c)), ArgTexts(before), ArgTexts(middle), ArgTexts(after),
            KeywordTexts(SortByName(c.kwargs)));
  }

  lemma Regroup(stem: seq<string>, b: seq<string>, m: seq<string>, a: seq<string>, k: seq<string>)
    ensures stem + (b + m + a + k) == stem + b + m + (a + k)
  {
  }

  lemma TwoTexts(x: Arg, y: Arg)
    requires x.Arg? && y.Arg?
    ensures ArgTexts([x, y]) == [x.text, y.text]
  {
    assert [x, y][1..] == [y] && [y][1..] == [];
    assert ArgTexts([y]) == [y.text];
  }

  /** A last argument that reads "name=text" looks like that keyword argument. */
  lemma EqualsReadsLikeKeyword(digest: string -> string, c: Call, name: string, value: Arg, spelled: Arg)
    requires value.Arg? && spelled.Arg? && spelled.text == name + "=" + value.text
    ensures Key(digest, c.(args := c.args + [spelled], kwargs := []))
            == Key(digest, c.(kwargs := [Keyword(name, value)]))
  {
    ArgTextsSplit(c.args, [spelled]);
    var one, two := c.(args := c.args + [spelled], kwargs := []), c.(kwargs := [Keyword(name, value)]);
    assert Rest(one) == ArgTexts(c.args) + [spelled.text];
    assert SortByName(two.kwargs) == [Keyword(name, value)];
    assert Rest(two) == ArgTexts(c.args) + [spelled.text];
  }

  lemma {:induction false} JoinHasColon(parts: seq<string>)
    requires |parts| > 1
    ensures ':' in Join(parts)
  {
    assert Join(parts)[|parts[0]|] == ':';
  }

  /** Everything before the first occurrence of a character. */
  function UpTo(text: string, stop: char): string {
    if text == "" || text[0] == stop then "" else [text[0]] + UpTo(text[1..], stop)
  }

  lemma {:induction false} UpToFirst(x: string, stop: char, rest: string)
    requires stop !in x
    ensures UpTo(x + [stop] + rest, stop) == x
    decreases |x|
  {
    var text := x + [stop] + rest;
    if x != "" {
      assert text[0] == x[0] && x[0] in x && text[1..] == x[1..] + [stop] + rest;
      assert forall c :: c in x[1..] ==> c in x;
      UpToFirst(x[1..], stop, rest);
    }
  }

  lemma SameFirstPart(stop: char, x: string, xs: string, y: string, ys: string)
    requires stop !in x && stop !in y && x + [stop] + xs == y + [stop] + ys
    ensures x == y && xs == ys
  {
    UpToFirst(x, stop, xs);
    UpToFirst(y, stop, ys);
    assert (x + [stop] + xs)[|x| + 1..] == xs && (y + [stop] + ys)[|y| + 1..] == ys;
  }

  predicate ColonFree(parts: seq<string>) {
    forall part :: part in parts ==> ':' !in part
  }

  lemma {:induction false} JoinIsInjective(a: seq<string>, b: seq<string>)
    requires a != [] && b != [] && ColonFree(a) && ColonFree(b) && Join(a) == Join(b)
    ensures a == b
    decreases |a|
  {
    assert a[0] in a && b[0] in b;
    if |a| > 1 { JoinHasColon(a); }
    if |b| > 1 { JoinHasColon(b); }
    if |a| > 1 {
      SameFirstPart(':', a[0], Join(a[1..]), b[0], Join(b[1..]));
      JoinIsInjective(a[1..], b[1..]);
      assert a == [a[0]] + a[1..] && b == [b[0]] + b[1..];
    }
  }

  /** After a common first part, equal texts come from equal rests. */
  lemma JoinAfterCommonPart(first: string, a: seq<string>, b: seq<string>)
    requires Join([first] + a) == Join([first] + b)
    ensures (a == [] <==> b == []) && Join(a) == Join(b)
  {
    assert ([first] + a)[1..] == a && ([first] + b)[1..] == b;
    if a != [] && b != [] {
      var text := first + ":" + Join(a);
      assert text[|first| + 1..] == Join(a);
      assert (first + ":" + Join(b))[|first| + 1..] == Join(b);
    } else {
      assert a != [] ==> |Join([first] + a)| > |first|;
      assert b != [] ==> |Join([first] + b)| > |first|;
    }
  }

  lemma JoinAfterStem(prefix: string, a: seq<string>, b: seq<string>)
    requires ColonFree(a) && ColonFree(b) && Join(Stem(prefix) + a) == Join(Stem(prefix) + b)
    ensures a == b
  {
    if prefix == "" {
      JoinAfterCommonPart(CACHE_VERSION, a, b);
    } else {
      assert Stem(prefix) + a == [CACHE_VERSION] + ([prefix] + a);
      assert Stem(prefix) + b == [CACHE_VERSION] + ([prefix] + b);
      JoinAfterCommonPart(CACHE_VERSION, [prefix] + a, [prefix] + b);
      JoinAfterCommonPart(prefix, a, b);
    }
    if a != [] { JoinIsInjective(a, b); }
  }

  /** What the key records of the keywords: the names and texts of those that are not None. */
  function Kept(kwargs: seq<Keyword>): seq<(string, string)> {
    if kwargs == [] then []
    else (if kwargs[0].value.Null? then [] else [(kwargs[0].name, kwargs[0].value.text)]) + Kept(kwargs[1..])
  }

  function Spelled(pairs: seq<(string, string)>): seq<string> {
    if pairs == [] then [] else [pairs[0].0 + "=" + pairs[0].1] + Spelled(pairs[1..])
  }

  lemma {:induction false} TextsAreSpelledPairs(kwargs: seq<Keyword>)
    ensures KeywordTexts(kwargs) == Spelled(Kept(kwargs))
    decreases |kwargs|
  {
    if kwargs != [] {
      TextsAreSpelledPairs(kwargs[1..]);
      if kwargs[0].value.Null? {
        assert Kept(kwargs) == Kept(kwargs[1..]) && KeywordTexts(kwargs) == KeywordTexts(kwargs[1..]);
      } else {
        assert Kept(kwargs)[1..] == Kept(kwargs[1..]);
      }
    }
  }

  ghost predicate ComesFrom(pair: (string, string), kwargs: seq<Keyword>) {
    exists i :: 0 <= i < |kwargs| && kwargs[i].value.Arg? && pair == (kwargs[i].name, kwargs[i].value.text)
  }

  lemma {:induction false} KeptComeFromKeywords(kwargs: seq<Keyword>, pair: (string, string))
    requires pair in Kept(kwargs)
    ensures ComesFrom(pair, kwargs)
    decreases |kwargs|
  {
    if pair in Kept(kwargs[1..]) {
      KeptComeFromKeywords(kwargs[1..], pair);
      var i :| 0 <= i < |kwargs[1..]| && kwargs[1..][i].value.Arg?
               && pair == (kwargs[1..][i].name, kwargs[1..][i].value.text);
      assert kwargs[i + 1] == kwargs[1..][i];
      assert ComesFrom(pair, kwargs);
    } else {
      assert kwargs[0].value.Arg? && pair == (kwargs[0].name, kwargs[0].value.text);
      assert ComesFrom(pair, kwargs);
    }
  }

  predicate PlainNames(pairs: seq<(string, string)>) {
    forall pair :: pair in pairs ==> '=' !in pair.0
  }

  /** The '='-free argument texts end where the spelled keywords begin. */
  lemma {:induction false} BoundaryIsVisible(
      a: seq<string>, p: seq<(string, string)>, b: seq<string>, q: seq<(string, string)>)
    requires forall x :: x in a || x in b ==> '=' !in x
    requires PlainNames(p) && PlainNames(q) && a + Spelled(p) == b + Spelled(q)
    ensures a == b && p == q
    decreases |a| + |b| + |p| + |q|
  {
    if a != [] && b != [] {
      assert (a + Spelled(p))[0] == a[0] && (b + Spelled(q))[0] == b[0];
      assert (a + Spelled(p))[1..] == a[1..] + Spelled(p) && (b + Spelled(q))[1..] == b[1..] + Spelled(q);
      BoundaryIsVisible(a[1..], p, b[1..], q);
      assert a == [a[0]] + a[1..] && b == [b[0]] + b[1..];
    } else if a == [] && b == [] {
      assert a + Spelled(p) == Spelled(p) && b + Spelled(q) == Spelled(q);
      SpellingIsInjective(p, q);
    } else if a == [] {
      ArgumentIsNoKeyword(b, q, p);
    } else {
      ArgumentIsNoKeyword(a, p, q);
    }
  }

  lemma ArgumentIsNoKeyword(a: seq<string>, p: seq<(string, string)>, q: seq<(string, string)>)
    requires a != [] && '=' !in a[0]
    ensures a + Spelled(p) != Spelled(q)
  {
    assert (a + Spelled(p))[0] == a[0];
    if q != [] {
      assert Spelled(q)[0][|q[0].0|] == '=';
    }
  }

  lemma {:induction false} SpellingIsInjective(p: seq<(string, string)>, q: seq<(string, string)>)
    requires PlainNames(p) && PlainNames(q) && Spelled(p) == Spelled(q)
    ensures p == q
    decreases |p|
  {
    if p != [] {
      assert q != [];
      assert p[0] in p && q[0] in q;
      assert Spelled(p)[0] == Spelled(q)[0];
      SameFirstPart('=', p[0].0, p[0].1, q[0].0, q[0].1);
      assert Spelled(p)[1..] == Spelled(p[1..]) && Spelled(q)[1..] == Spelled(q[1..]);
      SpellingIsInjective(p[1..], q[1..]);
      assert p == [p[0]] + p[1..] && q == [q[0]] + q[1..];
    }
  }

  /** No argument text or name contains a delimiter; keyword texts may contain '='. */
  predicate Plain(c: Call) {
    && (forall a :: a in c.args && a.Arg? ==> ':' !in a.text && '=' !in a.text)
    && (forall k :: k in c.kwargs ==> ':' !in k.name && '=' !in k.name && (k.value.Arg? ==> ':' !in k.value.text))
  }

  lemma {:induction false} ArgTextsComeFromArgs(args: seq<Arg>)
    ensures forall x :: x in ArgTexts(args) ==> exists a :: a in args && a.Arg? && a.text == x
    decreases |args|
  {
    if args != [] {
      ArgTextsComeFromArgs(args[1..]);
      assert args == [args[0]] + args[1..];
      assert args[0] in args;
    }
  }

  lemma {:induction false} SpelledTexts(pairs: seq<(string, string)>)
    ensures forall x :: x in Spelled(pairs) ==> exists pair :: pair in pairs && x == pair.0 + "=" + pair.1
    decreases |pairs|
  {
    if pairs != [] {
      SpelledTexts(pairs[1..]);
      assert pairs == [pairs[0]] + pairs[1..];
      assert pairs[0] in pairs;
    }
  }

  lemma KeptArePlain(c: Call)
    requires Plain(c) && DistinctNames(c.kwargs)
    ensures forall pair :: pair in Kept(SortByName(c.kwargs)) ==>
              '=' !in pair.0 && ':' !in pair.0 && ':' !in pair.1
  {
    var sorted := SortByName(c.kwargs);
    SortSorts(c.kwargs);
    forall pair | pair in Kept(sorted)
      ensures '=' !in pair.0 && ':' !in pair.0 && ':' !in pair.1
    {
      KeptComeFromKeywords(sorted, pair);
      var i :| 0 <= i < |sorted| && sorted[i].value.Arg? && pair == (sorted[i].name, sorted[i].value.text);
      assert sorted[i] in multiset(sorted);
      assert sorted[i] in c.kwargs;
    }
  }

  lemma PlainPartsOf(c: Call)
    requires Plain(c) && DistinctNames(c.kwargs)
    ensures Rest(c) == ArgTexts(c.args) + Spelled(Kept(SortByName(c.kwargs)))
    ensures ColonFree(Rest(c)) && PlainNames(Kept(SortByName(c.kwargs)))
    ensures forall x :: x in ArgTexts(c.args) ==> '=' !in x
  {
    KeptArePlain(c);
    TextsAreSpelledPairs(SortByName(c.kwargs));
    SpelledTexts(Kept(SortByName(c.kwargs)));
    ArgTextsComeFromArgs(c.args);
  }

  /**
   Two calls of one function whose texts hold no delimiter, with keys short enough not to be
   hashed, share a key exactly when their non-None positional texts agree and so do the names and
   texts of their non-None keywords.
   */
  lemma KeysTellPlainCallsApart(digest: string -> string, c: Call, d: Call)
    requires c.prefix == d.prefix && c.name == d.name
    requires Plain(c) && Plain(d) && DistinctNames(c.kwargs) && DistinctNames(d.kwargs)
    requires Short(c) && Short(d)
    ensures Key(digest, c) == Key(digest, d) <==>
            && ArgTexts(c.args) == ArgTexts(d.args)
            && Kept(SortByName(c.kwargs)) == Kept(SortByName(d.kwargs))
  {
    PlainPartsOf(c);
    PlainPartsOf(d);
    if Key(digest, c) == Key(digest, d) {
      assert (CACHE_PREFIX + Joined(c))[|CACHE_PREFIX|..] == Joined(c);
      assert (CACHE_PREFIX + Joined(d))[|CACHE_PREFIX|..] == Joined(d);
      JoinAfterStem(FullPrefix(c), Rest(c), Rest(d));
      BoundaryIsVisible(ArgTexts(c.args), Kept(SortByName(c.kwargs)), ArgTexts(d.args), Kept(SortByName(d.kwargs)));
    }
  }

  // ---------------------------------------------------------------------------
  // Invalidating a prefix
  // ---------------------------------------------------------------------------

  /** The start that a pattern "scf:cache:v1:<prefix>:*" demands, for a prefix without wildcards. */
  function PrefixPattern(prefix: string): string {
    CACHE_PREFIX + CACHE_VERSION + ":" + prefix + ":"
  }

  /**
   Invalidating a function's own prefix reaches exactly its plain keys.  A hashed key lacks the
   version, so the pattern misses it, unless prefix and name happen to repeat the version.
   */
  lemma PrefixInvalidationReachesExactly(digest: string -> string, c: Call)
    requires c.prefix != ""
    ensures PrefixPattern(c.prefix) <= Key(digest, c) <==>
            Short(c) || "v1:" + c.prefix + ":" <= FullPrefix(c) + ":" + digest(Joined(c))
    ensures !Short(c) && !("v1" <= c.prefix) && |c.prefix| >= 2 ==> !(PrefixPattern(c.prefix) <= Key(digest, c))
  {
    var wanted := "v1:" + c.prefix + ":";
    assert PrefixPattern(c.prefix) == CACHE_PREFIX + wanted;
    if Short(c) {
      JoinedStart(c);
      assert CACHE_PREFIX + Joined(c) == PrefixPattern(c.prefix) + Joined(c)[|wanted|..];
    } else {
      var tail := FullPrefix(c) + ":" + digest(Joined(c));
      assert Key(digest, c) == CACHE_PREFIX + tail;
      CommonHead(CACHE_PREFIX, wanted, tail);
      if |c.prefix| >= 2 && wanted <= tail {
        assert tail[..2] == c.prefix[..2] && wanted[..2] == "v1";
      }
    }
  }

  lemma JoinedStart(c: Call)
    requires c.prefix != ""
    ensures "v1:" + c.prefix + ":" <= Joined(c)
  {
    var full := FullPrefix(c);
    var parts := Stem(full) + Rest(c);
    assert parts[1..] == [full] + Rest(c) && parts[0] == CACHE_VERSION;
    var after := Join(parts[1..]);
    assert full <= after by {
      if Rest(c) != [] { assert after == full + ":" + Join(parts[1..][1..]); }
    }
    assert Joined(c) == "v1" + ":" + after;
    assert after == c.prefix + ":" + c.name + after[|full|..];
    assert Joined(c) == "v1:" + c.prefix + ":" + (c.name + after[|full|..]);
  }

  lemma CommonHead(head: string, x: string, y: string)
    ensures head + x <= head + y <==> x <= y
  {
    if head + x <= head + y {
      assert (head + y)[|head|..] == y;
      assert (head + y)[..|head + x|][|head|..] == y[..|x|];
      assert (head + x)[|head|..] == x;
    }
    if x <= y {
      assert (head + y)[..|head + x|] == head + y[..|x|];
    }
  }
}
