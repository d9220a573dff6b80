/** Normalising instrument spellings into BASE/QUOTE. */
module Instruments {
  import opened Wrappers
  import opened Ordering

  datatype Symbol = Symbol(base: string, quote: string)

  datatype Error =
    | EmptyInput
    | NonAsciiInput
    | EmptyQuoteAsset
    | NonAsciiQuoteAsset
    | NoQuoteAssets
    | InvalidAsset
    | WrongSlashCount
    | EmptySide
    | MixedSeparators
    | WrongSeparatorCount
    | UnknownQuote
    | NoQuoteSuffix
    | AmbiguousQuoteSuffix

  // ---- Characters and assets ----

  /** The characters str.strip() removes. */
  predicate IsSpace(c: char) {
    || '\t' <= c <= '\r' || '\U{1c}' <= c <= ' ' || c == '\U{85}' || c == '\U{a0}' || c == '\U{1680}'
    || '\U{2000}' <= c <= '\U{200a}' || c == '\U{2028}' || c == '\U{2029}' || c == '\U{202f}'
    || c == '\U{205f}' || c == '\U{3000}'
  }

  function StripLeft(s: string): string {
    if s != [] && IsSpace(s[0]) then StripLeft(s[1..]) else s
  }

  function StripRight(s: string): string {
    if s != [] && IsSpace(s[|s| - 1]) then StripRight(s[..|s| - 1]) else s
  }

  function Strip(s: string): string {
    StripRight(StripLeft(s))
  }

  predicate IsAscii(s: string) {
    forall i :: 0 <= i < |s| ==> s[i] < '\U{80}'
  }

  function UpperChar(c: char): char {
    if 'a' <= c <= 'z' then c - 'a' + 'A' else c
  }

  function Upper(s: string): string {
    seq(|s|, i requires 0 <= i < |s| => UpperChar(s[i]))
  }

  predicate AssetChar(c: char) {
    'A' <= c <= 'Z' || '0' <= c <= '9'
  }

  /** AssetSymbol: two to sixteen upper-case letters or digits. */
  predicate ValidAsset(s: string) {
    2 <= |s| <= 16 && forall i :: 0 <= i < |s| ==> AssetChar(s[i])
  }

  function Print(x: Symbol): string {
    x.base + "/" + x.quote
  }

  function MakeSymbol(base: string, quote: string): Result<Symbol, Error> {
    if ValidAsset(base) && ValidAsset(quote) then Ok(Symbol(base, quote)) else Err(InvalidAsset)
  }

  function Count(s: string, c: char): nat {
    if s == [] then 0 else (if s[0] == c then 1 else 0) + Count(s[1..], c)
  }

  lemma {:induction false} CountZero(s: string, c: char)
    ensures Count(s, c) == 0 <==> c !in s
  {
    if s != [] {
      CountZero(s[1..], c);
      assert s == [s[0]] + s[1..];
    }
  }

  lemma {:induction false} CountAndIndexOfJoin(a: string, c: char, b: string)
    requires c !in a && c !in b
    ensures c in a + [c] + b && Count(a + [c] + b, c) == 1 && IndexOf(a + [c] + b, c) == |a|
  {
    var s := a + [c] + b;
    assert s[|a|] == c;
    if a == [] {
      assert s[1..] == b;
      CountZero(b, c);
    } else {
      assert s[0] == a[0] && s[1..] == a[1..] + [c] + b;
      CountAndIndexOfJoin(a[1..], c, b);
    }
  }

  // ---- Known quotes ----

  function CleanQuote(q: string): Result<string, Error> {
    var stripped := Strip(q);
    if stripped == [] then Err(EmptyQuoteAsset)
    else if !IsAscii(stripped) then Err(NonAsciiQuoteAsset)
    else if !ValidAsset(Upper(stripped)) then Err(InvalidAsset)
    else Ok(Upper(stripped))
  }

  function QuoteSet(quotes: seq<string>): Result<set<string>, Error> {
    if quotes == [] then Ok({})
    else
      var n := |quotes| - 1;
      match QuoteSet(quotes[..n])
      case Err(e) => Err(e)
      case Ok(assets) =>
        match CleanQuote(quotes[n])
        case Err(e) => Err(e)
        case Ok(asset) => Ok(assets + {asset})
  }

  function KnownQuotes(quotes: seq<string>): Result<set<string>, Error> {
    match QuoteSet(quotes)
    case Err(e) => Err(e)
    case Ok(assets) => if assets == {} then Err(NoQuoteAssets) else Ok(assets)
  }

  /** sorted by (-len, text): longest first. */
  predicate QuoteLess(a: string, b: string) {
    |a| > |b| || (|a| == |b| && StringLess(a, b))
  }

  lemma QuoteLessStrictTotal()
    ensures StrictTotal(QuoteLess)
  {
    StringLessStrictTotal();
    forall a: string, b: string | a != b ensures QuoteLess(a, b) || QuoteLess(b, a) {
      StringLessConnected(a, b);
    }
    forall a, b, c | QuoteLess(a, b) && QuoteLess(b, c) ensures QuoteLess(a, c) {
      if StringLess(a, b) && StringLess(b, c) {
        StringLessTransitive(a, b, c);
      }
    }
    forall a, b ensures !(QuoteLess(a, b) && QuoteLess(b, a)) {
      StringLessAsymmetric(a, b);
    }
  }

  ghost function SortedQuotes(assets: set<string>): seq<string> {
    QuoteLessStrictTotal();
    SortedElements(QuoteLess, assets)
  }

  lemma {:induction false} QuoteSetErrorStays(quotes: seq<string>, i: nat)
    requires i <= |quotes| && QuoteSet(quotes[..i]).Err?
    ensures QuoteSet(quotes) == QuoteSet(quotes[..i])
    decreases |quotes| - i
  {
    if i == |quotes| {
      assert quotes[..i] == quotes;
    } else {
      assert quotes[..i + 1][..i] == quotes[..i];
      QuoteSetErrorStays(quotes, i + 1);
    }
  }

  /** _normalize_known_quote_assets: the set-building loop, then the sort. */
  method NormalizeKnownQuotes(quotes: seq<string>) returns (r: Result<seq<string>, Error>)
    ensures match KnownQuotes(quotes)
            case Err(e) => r == Err(e)
            case Ok(assets) => r == Ok(SortedQuotes(assets))
  {
    var assets: set<string> := {};
    var i := 0;
    while i < |quotes|
      invariant 0 <= i <= |quotes|
      invariant QuoteSet(quotes[..i]) == Ok(assets)
    {
      assert quotes[..i + 1][..i] == quotes[..i];
      var asset := CleanQuote(quotes[i]);
      if asset.Err? {
        QuoteSetErrorStays(quotes, i + 1);
        return Err(asset.error);
      }
      assets := assets + {asset.value};
      i := i + 1;
    }
    assert quotes[..i] == quotes;
    if assets == {} {
      return Err(NoQuoteAssets);
    }
    QuoteLessStrictTotal();
    var sorted := SortSet(QuoteLess, assets);
    r := Ok(sorted);
  }

  /** The known quotes are the cleaned entries: neither their order nor repeats matter. */
  lemma {:induction false} QuoteSetMeaning(quotes: seq<string>)
    ensures QuoteSet(quotes).Ok? <==> forall q :: q in quotes ==> CleanQuote(q).Ok?
    ensures QuoteSet(quotes).Ok? ==>
              forall a :: a in QuoteSet(quotes).value <==> exists q :: q in quotes && CleanQuote(q) == Ok(a)
  {
    if quotes != [] {
      var n := |quotes| - 1;
      QuoteSetMeaning(quotes[..n]);
      assert quotes == quotes[..n] + [quotes[n]];
    }
  }

  lemma QuoteOrderDoesNotMatter(one: seq<string>, two: seq<string>)
    requires forall q :: q in one <==> q in two
    ensures KnownQuotes(one).Ok? <==> KnownQuotes(two).Ok?
    ensures KnownQuotes(one).Ok? ==> KnownQuotes(one) == KnownQuotes(two)
  {
    QuoteSetMeaning(one);
    QuoteSetMeaning(two);
    if QuoteSet(one).Ok? {
      assert QuoteSet(one).value == QuoteSet(two).value;
    }
  }

  // ---- The three parsers ----

  function Slash(value: string): Result<Symbol, Error> {
    if Count(value, '/') != 1 || '/' !in value then Err(WrongSlashCount)
    else
      var i := IndexOf(value, '/');
      if value[..i] == [] || value[i + 1..] == [] then Err(EmptySide) else MakeSymbol(value[..i], value[i + 1..])
  }

  function Separated(value: string, known: set<string>): Result<Symbol, Error> {
    var separator := if '-' in value then '-' else '_';
    if '-' in value && '_' in value then Err(MixedSeparators)
    else if Count(value, separator) != 1 || separator !in value then Err(WrongSeparatorCount)
    else
      var i := IndexOf(value, separator);
      if value[..i] == [] || value[i + 1..] == [] then Err(EmptySide)
      else if !ValidAsset(value[i + 1..]) then Err(InvalidAsset)
      else if value[i + 1..] !in known then Err(UnknownQuote)
      else MakeSymbol(value[..i], value[i + 1..])
  }

  predicate EndsWith(value: string, suffix: string) {
    |suffix| <= |value| && value[|value| - |suffix|..] == suffix
  }

  /** The quote is a suffix that leaves a valid base. */
  predicate Fits(value: string, quote: string) {
    EndsWith(value, quote) && ValidAsset(value[..|value| - |quote|])
  }

  function Matches(value: string, quotes: seq<string>): seq<Symbol> {
    if quotes == [] then []
    else
      var n := |quotes| - 1;
      Matches(value, quotes[..n]) +
      if Fits(value, quotes[n]) then [Symbol(value[..|value| - |quotes[n]|], quotes[n])] else []
  }

  function BestLength(matches: seq<Symbol>): nat
    requires matches != []
  {
    |matches[0].quote|
  }

  function OfLength(matches: seq<Symbol>, n: nat): seq<Symbol> {
    if matches == [] then []
    else (if |matches[0].quote| == n then [matches[0]] else []) + OfLength(matches[1..], n)
  }

  function Compact(value: string, quotes: seq<string>): Result<Symbol, Error> {
    var matches := Matches(value, quotes);
    if matches == [] then Err(NoQuoteSuffix)
    else
      var best := OfLength(matches, BestLength(matches));
      if |best| != 1 then Err(AmbiguousQuoteSuffix) else MakeSymbol(best[0].base, best[0].quote)
  }

  /** _normalize_compact_instrument_symbol: the loop collects every match, in quote order. */
  method NormalizeCompact(value: string, quotes: seq<string>) returns (r: Result<Symbol, Error>)
    ensures r == Compact(value, quotes)
  {
    var matches: seq<Symbol> := [];
    var i := 0;
    while i < |quotes|
      invariant 0 <= i <= |quotes|
      invariant matches == Matches(value, quotes[..i])
    {
      assert quotes[..i + 1][..i] == quotes[..i];
      var quote := quotes[i];
      if EndsWith(value, quote) {
        var base := value[..|value| - |quote|];
        if base != [] && ValidAsset(base) {
          matches := matches + [Symbol(base, quote)];
        }
      }
      i := i + 1;
    }
    assert quotes[..i] == quotes;
    if matches == [] {
      return Err(NoQuoteSuffix);
    }
    var best := OfLength(matches, BestLength(matches));
    if |best| != 1 {
      return Err(AmbiguousQuoteSuffix);
    }
    r := MakeSymbol(best[0].base, best[0].quote);
  }

  /** normalize_instrument_symbol on a string. */
  ghost function Normalize(value: string, quotes: seq<string>): Result<Symbol, Error> {
    var stripped := Strip(value);
    var known := KnownQuotes(quotes);
    if stripped == [] then Err(EmptyInput)
    else if !IsAscii(stripped) then Err(NonAsciiInput)
    else if known.Err? then Err(known.error)
    else if '/' in Upper(stripped) then Slash(Upper(stripped))
    else if '-' in Upper(stripped) || '_' in Upper(stripped) then Separated(Upper(stripped), known.value)
    else Compact(Upper(stripped), SortedQuotes(known.value))
  }

  method NormalizeInstrumentSymbol(value: string, quotes: seq<string>) returns (r: Result<Symbol, Error>)
    ensures r == Normalize(value, quotes)
  {
    var stripped := Strip(value);
    if stripped == [] {
      return Err(EmptyInput);
    }
    if !IsAscii(stripped) {
      return Err(NonAsciiInput);
    }
    var normalized := Upper(stripped);
    var assets := NormalizeKnownQuotes(quotes);
    if assets.Err? {
      return Err(assets.error);
    }
    if '/' in normalized {
      return Slash(normalized);
    }
    if '-' in normalized || '_' in normalized {
      var known := set q | q in assets.value;
      assert known == KnownQuotes(quotes).value;
      return Separated(normalized, known);
    }
    r := NormalizeCompact(normalized, assets.value);
  }

  // ---- Compact symbols ----

  /** A match spells the value with a listed quote and a valid base. */
  ghost predicate IsMatch(value: string, quotes: seq<string>, x: Symbol) {
    x.quote in quotes && Fits(value, x.quote) && x.base == value[..|value| - |x.quote|]
  }

  lemma {:induction false} MatchesMeaning(value: string, quotes: seq<string>)
    ensures forall x :: x in Matches(value, quotes) <==> IsMatch(value, quotes, x)
  {
    if quotes != [] {
      var n := |quotes| - 1;
      var init, last := quotes[..n], quotes[n];
      MatchesMeaning(value, init);
      assert quotes == init + [last];
      forall x ensures x in Matches(value, quotes) <==> IsMatch(value, quotes, x) {
        assert x in Matches(value, quotes) <==>
               x in Matches(value, init) || (Fits(value, last) && x == Symbol(value[..|value| - |last|], last));
        assert x.quote in quotes <==> x.quote in init || x.quote == last;
      }
    }
  }

  lemma {:induction false} MatchesAscend(value: string, quotes: seq<string>, i: nat, j: nat)
    requires Ascending(QuoteLess, quotes) && i < j < |Matches(value, quotes)|
    ensures QuoteLess(Matches(value, quotes)[i].quote, Matches(value, quotes)[j].quote)
  {
    var n := |quotes| - 1;
    var before := Matches(value, quotes[..n]);
    if j < |before| {
      MatchesAscend(value, quotes[..n], i, j);
    } else {
      MatchesMeaning(value, quotes[..n]);
      assert before[i] in before;
      var k :| 0 <= k < n && quotes[..n][k] == before[i].quote;
      assert QuoteLess(quotes[k], quotes[n]);
    }
  }

  /** Suffixes of one value and of one length are the same suffix. */
  lemma SameLengthSameSuffix(value: string, a: string, b: string)
    requires EndsWith(value, a) && EndsWith(value, b) && |a| == |b|
    ensures a == b
  {}

  lemma {:induction false} NoneOfLength(matches: seq<Symbol>, n: nat)
    requires forall i :: 0 <= i < |matches| ==> |matches[i].quote| != n
    ensures OfLength(matches, n) == []
  {
    if matches != [] {
      NoneOfLength(matches[1..], n);
    }
  }

  /** Among the matches the first is the only one of its length: the ambiguous branch is dead. */
  lemma BestIsFirst(value: string, quotes: seq<string>)
    requires Ascending(QuoteLess, quotes) && Matches(value, quotes) != []
    ensures var m := Matches(value, quotes);
            && OfLength(m, BestLength(m)) == [m[0]]
            && forall i :: 0 < i < |m| ==> |m[i].quote| < |m[0].quote|
  {
    MatchesMeaning(value, quotes);
    var m := Matches(value, quotes);
    forall i | 0 < i < |m| ensures |m[i].quote| < |m[0].quote| {
      MatchesAscend(value, quotes, 0, i);
      assert m[0] in m && m[i] in m;
      if |m[i].quote| == |m[0].quote| {
        SameLengthSameSuffix(value, m[0].quote, m[i].quote);
        StringLessAsymmetric(m[0].quote, m[0].quote);
      }
    }
    NoneOfLength(m[1..], |m[0].quote|);
  }

  /** The longest known quote that leaves a valid base. */
  ghost predicate IsLongestFit(value: string, known: set<string>, quote: string) {
    && quote in known && Fits(value, quote)
    && forall q :: q in known && Fits(value, q) && q != quote ==> |q| < |quote|
  }

  ghost predicate AllValid(known: set<string>) {
    forall q :: q in known ==> ValidAsset(q)
  }

  /** Compact parsing is longest-suffix parsing: it answers with base and quote that spell the input
      exactly when the quote is the longest fitting one, it refuses exactly when no quote fits, and it
      is never ambiguous. */
  lemma CompactIsLongestSuffix(value: string, known: set<string>, x: Symbol)
    requires AllValid(known)
    ensures Compact(value, SortedQuotes(known)) == Ok(x) <==>
            x.base + x.quote == value && ValidAsset(x.base) && IsLongestFit(value, known, x.quote)
    ensures Compact(value, SortedQuotes(known)) == Err(NoQuoteSuffix) <==> forall q :: q in known ==> !Fits(value, q)
    ensures Compact(value, SortedQuotes(known)) != Err(AmbiguousQuoteSuffix)
  {
    var quotes := SortedQuotes(known);
    QuoteLessStrictTotal();
    if Matches(value, quotes) != [] {
      var best := BestIsLongest(value, known);
      SpelledByQuote(value, x, best.quote);
      if IsLongestFit(value, known, x.quote) {
        LongestFitIsUnique(value, known, x.quote, best.quote);
      }
    } else {
      NothingFits(value, known);
    }
  }

  lemma SpelledByQuote(value: string, x: Symbol, quote: string)
    requires EndsWith(value, quote)
    ensures x.quote == quote ==> (x.base + x.quote == value <==> x.base == value[..|value| - |quote|])
  {
    assert value == value[..|value| - |quote|] + value[|value| - |quote|..];
    assert x.base + x.quote == value ==> x.base == value[..|x.base|];
  }

  lemma NothingFits(value: string, known: set<string>)
    requires Matches(value, SortedQuotes(known)) == []
    ensures forall q :: q in known ==> !Fits(value, q)
  {
    forall q | q in known ensures !Fits(value, q) {
      if Fits(value, q) {
        FitsMeansMatch(value, SortedQuotes(known), q);
      }
    }
  }

  lemma FitsMeansMatch(value: string, quotes: seq<string>, q: string)
    requires q in quotes && Fits(value, q)
    ensures Symbol(value[..|value| - |q|], q) in Matches(value, quotes)
  {
    MatchesMeaning(value, quotes);
    assert IsMatch(value, quotes, Symbol(value[..|value| - |q|], q));
  }

  lemma LongestFitIsUnique(value: string, known: set<string>, a: string, b: string)
    requires IsLongestFit(value, known, a) && IsLongestFit(value, known, b)
    ensures a == b
  {}

  lemma BestIsLongest(value: string, known: set<string>) returns (best: Symbol)
    requires AllValid(known) && Matches(value, SortedQuotes(known)) != []
    ensures Compact(value, SortedQuotes(known)) == Ok(best)
    ensures IsLongestFit(value, known, best.quote) && best.base == value[..|value| - |best.quote|]
  {
    var quotes := SortedQuotes(known);
    QuoteLessStrictTotal();
    var m := Matches(value, quotes);
    best := m[0];
    MatchesMeaning(value, quotes);
    BestIsFirst(value, quotes);
    assert best in m;
    forall q | q in known && Fits(value, q) && q != best.quote ensures |q| < |best.quote| {
      assert IsMatch(value, quotes, Symbol(value[..|value| - |q|], q));
      var i :| 0 <= i < |m| && m[i] == Symbol(value[..|value| - |q|], q);
    }
  }

  // ---- Spellings ----

  lemma AssetText(s: string)
    requires ValidAsset(s)
    ensures '/' !in s && '-' !in s && '_' !in s
  {
    forall c | c in s ensures AssetChar(c) {
      var i :| 0 <= i < |s| && s[i] == c;
    }
  }

  /** Joined asset texts are already stripped, ASCII and upper case. */
  lemma JoinedIsClean(base: string, middle: string, quote: string)
    requires ValidAsset(base) && ValidAsset(quote) && (middle == "" || middle in {"/", "-", "_"})
    ensures var s := base + middle + quote;
            Strip(s) == s && s != [] && IsAscii(s) && Upper(s) == s
  {
    var s := base + middle + quote;
    assert s[0] == base[0] && s[|s| - 1] == quote[|quote| - 1];
    forall i | 0 <= i < |s| ensures s[i] < '\U{80}' && UpperChar(s[i]) == s[i] {
      if i < |base| {
        assert AssetChar(s[i]);
      } else if i >= |base| + |middle| {
        assert s[i] == quote[i - |base| - |middle|];
      } else {
        assert s[i] == middle[0];
      }
    }
  }

  lemma SpelledWith(base: string, separator: char, quote: string)
    requires ValidAsset(base) && ValidAsset(quote) && separator in {'/', '-', '_'}
    ensures var s := base + [separator] + quote;
            && separator in s && Count(s, separator) == 1
            && s[..IndexOf(s, separator)] == base && s[IndexOf(s, separator) + 1..] == quote
            && (forall c :: c in {'/', '-', '_'} && c != separator ==> c !in s)
  {
    AssetText(base);
    AssetText(quote);
    CountAndIndexOfJoin(base, separator, quote);
  }

  lemma KnownAreValid(quotes: seq<string>)
    requires KnownQuotes(quotes).Ok?
    ensures AllValid(KnownQuotes(quotes).value)
  {
    QuoteSetMeaning(quotes);
  }

  /** On text that is already stripped, ASCII and upper case, only the choice of parser is left. */
  lemma NormalizeClean(value: string, quotes: seq<string>)
    requires Strip(value) == value && value != [] && IsAscii(value) && Upper(value) == value && KnownQuotes(quotes).Ok?
    ensures Normalize(value, quotes) ==
            if '/' in value then Slash(value)
            else if '-' in value || '_' in value then Separated(value, KnownQuotes(quotes).value)
            else Compact(value, SortedQuotes(KnownQuotes(quotes).value))
  {}

  /** The printed form of any symbol normalises to itself, for every accepted quote list. */
  lemma PrintedFormIsFixed(x: Symbol, quotes: seq<string>)
    requires ValidAsset(x.base) && ValidAsset(x.quote) && KnownQuotes(quotes).Ok?
    ensures Normalize(Print(x), quotes) == Ok(x)
  {
    assert Print(x) == x.base + ['/'] + x.quote == x.base + "/" + x.quote;
    JoinedIsClean(x.base, "/", x.quote);
    SpelledWith(x.base, '/', x.quote);
    NormalizeClean(Print(x), quotes);
  }

  lemma SeparatedSpelling(x: Symbol, separator: char, known: set<string>)
    requires ValidAsset(x.base) && ValidAsset(x.quote) && separator in {'-', '_'}
    ensures Separated(x.base + [separator] + x.quote, known) == if x.quote in known then Ok(x) else Err(UnknownQuote)
  {
    SpelledWith(x.base, separator, x.quote);
  }

  lemma NormalizeSeparated(x: Symbol, separator: char, quotes: seq<string>)
    requires ValidAsset(x.base) && ValidAsset(x.quote) && KnownQuotes(quotes).Ok? && separator in {'-', '_'}
    ensures Normalize(x.base + [separator] + x.quote, quotes) ==
            Separated(x.base + [separator] + x.quote, KnownQuotes(quotes).value)
  {
    JoinedIsClean(x.base, [separator], x.quote);
    NormalizeClean(x.base + [separator] + x.quote, quotes);
    SpelledWith(x.base, separator, x.quote);
  }

  /** Hyphen and underscore spellings give the slash spelling's symbol exactly for known quotes. */
  lemma SeparatedSpellingsAgree(x: Symbol, separator: char, quotes: seq<string>)
    requires ValidAsset(x.base) && ValidAsset(x.quote) && KnownQuotes(quotes).Ok? && separator in {'-', '_'}
    ensures Normalize(x.base + [separator] + x.quote, quotes) == Normalize(Print(x), quotes) <==>
            x.quote in KnownQuotes(quotes).value
  {
    NormalizeSeparated(x, separator, quotes);
    SeparatedSpelling(x, separator, KnownQuotes(quotes).value);
    PrintedFormIsFixed(x, quotes);
  }

  lemma NormalizeCompactly(x: Symbol, quotes: seq<string>)
    requires ValidAsset(x.base) && ValidAsset(x.quote) && KnownQuotes(quotes).Ok?
    ensures Normalize(x.base + x.quote, quotes) == Compact(x.base + x.quote, SortedQuotes(KnownQuotes(quotes).value))
  {
    assert x.base + "" + x.quote == x.base + x.quote;
    JoinedIsClean(x.base, "", x.quote);
    NormalizeClean(x.base + x.quote, quotes);
    AssetText(x.base);
    AssetText(x.quote);
  }

  /** The compact spelling agrees with the slash spelling exactly when no longer known quote also
      ends it with a valid base left over. */
  lemma CompactSpellingAgreesExactly(x: Symbol, quotes: seq<string>)
    requires ValidAsset(x.base) && ValidAsset(x.quote) && KnownQuotes(quotes).Ok?
    ensures Normalize(x.base + x.quote, quotes) == Ok(x) <==>
            && x.quote in KnownQuotes(quotes).value
            && forall q :: q in KnownQuotes(quotes).value && |q| > |x.quote| ==> !Fits(x.base + x.quote, q)
  {
    var value, known := x.base + x.quote, KnownQuotes(quotes).value;
    NormalizeCompactly(x, quotes);
    KnownAreValid(quotes);
    CompactIsLongestSuffix(value, known, x);
    assert Fits(value, x.quote);
    forall q | q in known && Fits(value, q) && |q| == |x.quote| ensures q == x.quote {
      SameLengthSameSuffix(value, q, x.quote);
    }
  }

  /** Whatever normalisation returns is a pair of valid assets, so it can be printed and read back. */
  lemma NormalizedIsValid(value: string, quotes: seq<string>)
    requires Normalize(value, quotes).Ok?
    ensures var x := Normalize(value, quotes).value;
            ValidAsset(x.base) && ValidAsset(x.quote) && Normalize(Print(x), quotes) == Ok(x)
  {
    PrintedFormIsFixed(Normalize(value, quotes).value, quotes);
  }
}
