/** Dish slugs: the normalising function and the collision loop of dish creation. */
module Slugs {
  import opened Wrappers

  // ----- _slugify -----

  predicate SlugChar(c: char) {
    || 'a' <= c <= 'z'
    || '0' <= c <= '9'
    || '\U{0430}' <= c <= '\U{044F}'
    || c == '\U{0451}'
  }

  predicate Space(c: char) {
    || '\U{0009}' <= c <= '\U{000D}' || '\U{001C}' <= c <= '\U{0020}' || c == '\U{0085}' || c == '\U{00A0}'
    || c == '\U{1680}' || '\U{2000}' <= c <= '\U{200A}' || c == '\U{2028}' || c == '\U{2029}'
    || c == '\U{202F}' || c == '\U{205F}' || c == '\U{3000}'
  }

  const LATIN_AND_DIGITS := "abcdefghijklmnopqrstuvwxyz0123456789"
  const CYRILLIC :=
    "\U{0430}\U{0431}\U{0432}\U{0433}\U{0434}\U{0435}\U{0451}\U{0436}\U{0437}\U{0438}\U{0439}" +
    "\U{043A}\U{043B}\U{043C}\U{043D}\U{043E}\U{043F}\U{0440}\U{0441}\U{0442}\U{0443}\U{0444}" +
    "\U{0445}\U{0446}\U{0447}\U{0448}\U{0449}\U{044A}\U{044B}\U{044C}\U{044D}\U{044E}\U{044F}"

  /** The allowed characters are the letters of the two small alphabets and the digits; none is white space. */
  lemma SlugCharsAre(c: char)
    ensures SlugChar(c) <==> c in LATIN_AND_DIGITS || c in CYRILLIC
    ensures SlugChar(c) ==> !Space(c)
  {}

  predicate Hyphen(c: char) {
    c == '-'
  }

  function TrimLeft(s: string, drop: char -> bool): string {
    if s != [] && drop(s[0]) then TrimLeft(s[1..], drop) else s
  }

  function TrimRight(s: string, drop: char -> bool): string {
    if s != [] && drop(s[|s| - 1]) then TrimRight(s[..|s| - 1], drop) else s
  }

  function Trim(s: string, drop: char -> bool): string {
    TrimRight(TrimLeft(s, drop), drop)
  }

  // The first substitution: each maximal run of other characters becomes one hyphen
  function HyphenateRuns(s: string): string {
    if s == [] then []
    else if SlugChar(s[0]) then [s[0]] + HyphenateRuns(s[1..])
    else if |s| > 1 && !SlugChar(s[1]) then HyphenateRuns(s[1..])
    else "-" + HyphenateRuns(s[1..])
  }

  // The second substitution: each run of two or more hyphens becomes one
  function CollapseHyphens(s: string): string {
    if s == [] then []
    else if s[0] == '-' && |s| > 1 && s[1] == '-' then CollapseHyphens(s[1..])
    else [s[0]] + CollapseHyphens(s[1..])
  }

  function SlugBody(lower: string -> string, value: string): string {
    Trim(CollapseHyphens(HyphenateRuns(lower(Trim(value, Space)))), Hyphen)
  }

  // `fallback` is the fresh identifier used when nothing is left
  function Slugify(lower: string -> string, value: string, fallback: string): string {
    var body := SlugBody(lower, value);
    if body == [] then fallback else body
  }

  predicate SlugChars(s: string) {
    forall k :: 0 <= k < |s| ==> SlugChar(s[k]) || s[k] == '-'
  }

  predicate NoDoubleHyphen(s: string) {
    forall k :: 0 <= k < |s| - 1 ==> s[k] != '-' || s[k + 1] != '-'
  }

  // Allowed characters, no leading, trailing or doubled hyphen
  predicate Normal(s: string) {
    SlugChars(s) && NoDoubleHyphen(s) && (s != [] ==> s[0] != '-' && s[|s| - 1] != '-')
  }

  // Lower-casing leaves a string of slug characters and hyphens alone
  ghost predicate KeepsSlugs(lower: string -> string) {
    forall s :: SlugChars(s) ==> lower(s) == s
  }

  // What a slug carries of its source: the allowed characters, in order
  function Letters(s: string): string {
    if s == [] then [] else (if SlugChar(s[0]) then [s[0]] else []) + Letters(s[1..])
  }

  lemma {:induction false} HyphenateRunsShape(s: string)
    ensures var r := HyphenateRuns(s);
            && SlugChars(r) && NoDoubleHyphen(r) && Letters(r) == Letters(s)
            && (r != [] <==> s != [])
            && (s != [] ==> (r[0] == '-' <==> !SlugChar(s[0])))
  {
    if s != [] {
      HyphenateRunsShape(s[1..]);
    }
  }

  lemma {:induction false} CollapseIsIdentity(s: string)
    requires NoDoubleHyphen(s)
    ensures CollapseHyphens(s) == s
  {
    if s != [] {
      CollapseIsIdentity(s[1..]);
    }
  }

  /** The second substitution never changes what the first one returns. */
  lemma SecondPassIsIdle(s: string)
    ensures CollapseHyphens(HyphenateRuns(s)) == HyphenateRuns(s)
  {
    HyphenateRunsShape(s);
    CollapseIsIdentity(HyphenateRuns(s));
  }

  lemma {:induction false} LettersConcat(a: string, b: string)
    ensures Letters(a + b) == Letters(a) + Letters(b)
  {
    if a == [] {
      assert a + b == b;
    } else {
      assert (a + b)[0] == a[0] && (a + b)[1..] == a[1..] + b;
      LettersConcat(a[1..], b);
      var head := if SlugChar(a[0]) then [a[0]] else [];
      assert Letters(a + b) == head + (Letters(a[1..]) + Letters(b));
      assert Letters(a) == head + Letters(a[1..]);
    }
  }

  lemma {:induction false} TrimLeftHyphens(s: string)
    requires SlugChars(s) && NoDoubleHyphen(s)
    ensures var r := TrimLeft(s, Hyphen);
            SlugChars(r) && NoDoubleHyphen(r) && Letters(r) == Letters(s) && (r != [] ==> r[0] != '-')
  {
    if s != [] && s[0] == '-' {
      TrimLeftHyphens(s[1..]);
    }
  }

  lemma {:induction false} TrimRightHyphens(s: string)
    requires SlugChars(s) && NoDoubleHyphen(s) && (s != [] ==> s[0] != '-')
    ensures Normal(TrimRight(s, Hyphen)) && Letters(TrimRight(s, Hyphen)) == Letters(s)
  {
    if s != [] && s[|s| - 1] == '-' {
      TrimRightHyphens(s[..|s| - 1]);
      assert s == s[..|s| - 1] + "-";
      LettersConcat(s[..|s| - 1], "-");
    }
  }

  /** The slug is in normal form and carries exactly the allowed characters of the lower-cased name, in order. */
  lemma SlugBodyIsNormal(lower: string -> string, value: string)
    ensures Normal(SlugBody(lower, value))
    ensures Letters(SlugBody(lower, value)) == Letters(lower(Trim(value, Space)))
  {
    var s := HyphenateRuns(lower(Trim(value, Space)));
    HyphenateRunsShape(lower(Trim(value, Space)));
    CollapseIsIdentity(s);
    TrimLeftHyphens(s);
    TrimRightHyphens(TrimLeft(s, Hyphen));
  }

  // ----- A slug is the words of the name, joined by hyphens -----

  // The maximal runs of slug characters
  function Words(s: string): (words: seq<string>)
    ensures s != [] && SlugChar(s[0]) ==> words != []
  {
    if s == [] then []
    else if !SlugChar(s[0]) then Words(s[1..])
    else if |s| > 1 && SlugChar(s[1]) then
      var words := Words(s[1..]);
      [[s[0]] + words[0]] + words[1..]
    else [[s[0]]] + Words(s[1..])
  }

  function Join(words: seq<string>): string {
    if words == [] then []
    else if |words| == 1 then words[0]
    else words[0] + "-" + Join(words[1..])
  }

  predicate StartsApart(s: string) {
    s != [] && !SlugChar(s[0])
  }

  predicate EndsApart(s: string) {
    s != [] && !SlugChar(s[|s| - 1])
  }

  lemma {:induction false} NoWordsApart(s: string)
    requires Words(s) == [] && s != []
    ensures StartsApart(s) && EndsApart(s) && HyphenateRuns(s) == "-"
  {
    if |s| > 1 {
      NoWordsApart(s[1..]);
    }
  }

  // A letter put in front extends the first word, if one starts there, or is a word of its own
  lemma JoinFront(c: char, rest: string)
    requires SlugChar(c)
    ensures Join(Words([c] + rest)) ==
              if Words(rest) == [] then [c]
              else if StartsApart(rest) then [c] + "-" + Join(Words(rest))
              else [c] + Join(Words(rest))
  {
    var s := [c] + rest;
    assert s[1..] == rest;
    if rest != [] && SlugChar(rest[0]) {
      var words := Words(rest);
      var joined := [[c] + words[0]] + words[1..];
      assert Words(s) == joined && joined[1..] == words[1..];
      if |words| > 1 {
        assert ([c] + words[0]) + "-" + Join(words[1..]) == [c] + (words[0] + "-" + Join(words[1..]));
      }
    } else {
      var words := Words(rest);
      assert Words(s) == [[c]] + words;
      assert ([[c]] + words)[1..] == words;
    }
  }

  // The words joined, with a hyphen after them where the text does not end in a word
  function Tailed(s: string): string {
    if EndsApart(s) then Join(Words(s)) + "-" else Join(Words(s))
  }

  // And one before them where it does not begin in a word; without words one hyphen stands for all
  function Framed(s: string): string {
    if Words(s) == [] then (if s == [] then [] else "-")
    else if StartsApart(s) then "-" + Tailed(s)
    else Tailed(s)
  }

  lemma SameEnd(c: char, rest: string)
    requires rest != []
    ensures EndsApart([c] + rest) <==> EndsApart(rest)
  {
    assert ([c] + rest)[|rest|] == rest[|rest| - 1];
  }

  lemma Reassociate(first: string, rest: string)
    ensures (first + "-" + rest) + "-" == first + ("-" + (rest + "-"))
    ensures first + "-" + rest == first + ("-" + rest)
    ensures (first + rest) + "-" == first + (rest + "-")
  {}

  lemma TailedFront(c: char, rest: string)
    requires SlugChar(c) && Words(rest) != []
    ensures Tailed([c] + rest) == if StartsApart(rest) then [c] + ("-" + Tailed(rest)) else [c] + Tailed(rest)
  {
    JoinFront(c, rest);
    SameEnd(c, rest);
    Reassociate([c], Join(Words(rest)));
  }

  lemma FramedFront(c: char, rest: string)
    requires SlugChar(c)
    ensures Framed([c] + rest) == [c] + Framed(rest)
  {
    JoinFront(c, rest);
    if Words(rest) != [] {
      TailedFront(c, rest);
    } else if rest != [] {
      NoWordsApart(rest);
      SameEnd(c, rest);
    }
  }

  // A separator in front frames the text, once
  lemma FramedApart(c: char, rest: string)
    requires !SlugChar(c)
    ensures Framed([c] + rest) == if StartsApart(rest) then Framed(rest) else "-" + Framed(rest)
  {
    assert ([c] + rest)[1..] == rest;
    if Words(rest) != [] {
      SameEnd(c, rest);
    } else if rest != [] {
      NoWordsApart(rest);
    }
  }

  lemma {:induction false} HyphenateIsFramed(s: string)
    ensures HyphenateRuns(s) == Framed(s)
  {
    if s != [] {
      var c, rest := s[0], s[1..];
      assert s == [c] + rest;
      HyphenateIsFramed(rest);
      if SlugChar(c) {
        FramedFront(c, rest);
      } else {
        FramedApart(c, rest);
      }
    }
  }

  lemma {:induction false} JoinEnds(s: string)
    requires Words(s) != []
    ensures var r := Join(Words(s));
            r != [] && SlugChar(r[0]) && SlugChar(r[|r| - 1])
  {
    var c, rest := s[0], s[1..];
    if Words(rest) != [] {
      JoinEnds(rest);
    }
    if SlugChar(c) {
      JoinFront(c, rest);
      assert s == [c] + rest;
    }
  }

  lemma TrimFrame(body: string)
    requires body != [] && body[0] != '-' && body[|body| - 1] != '-'
    ensures Trim(body, Hyphen) == Trim("-" + body, Hyphen) == body
    ensures Trim(body + "-", Hyphen) == Trim("-" + (body + "-"), Hyphen) == body
  {
    TrimKeeps(body, Hyphen);
    TrimDropsLast(body + "-", Hyphen);
    assert (body + "-")[..|body|] == body;
    assert ("-" + body)[1..] == body && ("-" + (body + "-"))[1..] == body + "-";
    assert TrimLeft("-" + body, Hyphen) == TrimLeft(body, Hyphen);
    assert TrimLeft("-" + (body + "-"), Hyphen) == TrimLeft(body + "-", Hyphen);
  }

  /** For every name the slug is the runs of allowed characters of its lower-casing, in order, joined by single hyphens. */
  lemma SlugIsJoinedWords(lower: string -> string, value: string)
    ensures SlugBody(lower, value) == Join(Words(lower(Trim(value, Space))))
  {
    var s := lower(Trim(value, Space));
    SecondPassIsIdle(s);
    HyphenateIsFramed(s);
    if Words(s) == [] {
      assert Trim("-", Hyphen) == [];
    } else {
      JoinEnds(s);
      TrimFrame(Join(Words(s)));
    }
  }

  lemma {:induction false} NoLettersIffNoSlugChar(s: string)
    ensures Letters(s) != [] <==> exists k :: 0 <= k < |s| && SlugChar(s[k])
  {
    if s != [] {
      NoLettersIffNoSlugChar(s[1..]);
      if exists k :: 0 <= k < |s[1..]| && SlugChar(s[1..][k]) {
        var k :| 0 <= k < |s[1..]| && SlugChar(s[1..][k]);
        assert SlugChar(s[k + 1]);
      }
      if !SlugChar(s[0]) && exists k :: 0 <= k < |s| && SlugChar(s[k]) {
        var k :| 0 <= k < |s| && SlugChar(s[k]);
        assert SlugChar(s[1..][k - 1]);
      }
    }
  }

  /** The fallback is used exactly when the lower-cased name has no allowed character. */
  lemma FallbackIff(lower: string -> string, value: string, fallback: string)
    ensures var s := lower(Trim(value, Space));
            SlugBody(lower, value) == [] <==> !exists k :: 0 <= k < |s| && SlugChar(s[k])
    ensures Slugify(lower, value, fallback) == if SlugBody(lower, value) == [] then fallback else SlugBody(lower, value)
  {
    var body := SlugBody(lower, value);
    SlugBodyIsNormal(lower, value);
    NoLettersIffNoSlugChar(lower(Trim(value, Space)));
    if body != [] {
      assert SlugChar(body[0]);
    }
  }

  lemma {:induction false} HyphenateNormal(s: string)
    requires SlugChars(s) && NoDoubleHyphen(s)
    ensures HyphenateRuns(s) == s
  {
    if s != [] {
      HyphenateNormal(s[1..]);
    }
  }

  lemma TrimKeeps(s: string, drop: char -> bool)
    requires s != [] && !drop(s[0]) && !drop(s[|s| - 1])
    ensures Trim(s, drop) == s
  {
    assert TrimLeft(s, drop) == s;
  }

  lemma NormalIsFixed(s: string)
    requires Normal(s) && s != []
    ensures Trim(s, Space) == s
    ensures Trim(CollapseHyphens(HyphenateRuns(s)), Hyphen) == s
  {
    assert SlugChar(s[0]) && SlugChar(s[|s| - 1]);
    TrimKeeps(s, Space);
    HyphenateNormal(s);
    CollapseIsIdentity(s);
    TrimKeeps(s, Hyphen);
  }

  /** Slugs are fixed points: slugifying a slug again changes nothing. */
  lemma SlugifyIdempotent(lower: string -> string, value: string, fallback: string, other: string)
    requires KeepsSlugs(lower) && SlugBody(lower, value) != []
    ensures Slugify(lower, Slugify(lower, value, fallback), other) == Slugify(lower, value, fallback)
  {
    SlugBodyIsNormal(lower, value);
    NormalIsFixed(SlugBody(lower, value));
  }

  // ----- The collision loop -----

  function Digit(d: nat): char
    requires d < 10
  {
    "0123456789"[d]
  }

  function Decimal(n: nat): string {
    if n < 10 then [Digit(n)] else Decimal(n / 10) + [Digit(n % 10)]
  }

  function Candidate(base: string, suffix: nat): string {
    if suffix <= 1 then base else base + "-" + Decimal(suffix)
  }

  // The number that a string of digits stands for
  function Value(digits: string): int {
    if digits == [] then 0 else 10 * Value(digits[..|digits| - 1]) + (digits[|digits| - 1] as int - '0' as int)
  }

  /** The suffix is printed in decimal: reading it back gives the number, and it has no leading zero. */
  lemma {:induction false} DecimalReadsBack(n: nat)
    ensures Value(Decimal(n)) == n
    ensures Decimal(n) != [] && (n > 0 ==> Decimal(n)[0] != '0')
    ensures forall k :: 0 <= k < |Decimal(n)| ==> '0' <= Decimal(n)[k] <= '9'
  {
    if n < 10 {
      assert Decimal(n)[..0] == [];
    } else {
      DecimalReadsBack(n / 10);
      assert Decimal(n)[..|Decimal(n)| - 1] == Decimal(n / 10);
    }
  }

  lemma DecimalInjective(m: nat, n: nat)
    requires Decimal(m) == Decimal(n)
    ensures m == n
  {
    DecimalReadsBack(m);
    DecimalReadsBack(n);
  }

  lemma {:induction false} DecimalNonEmpty(n: nat)
    ensures Decimal(n) != []
  {}

  lemma CandidatesDiffer(base: string, m: nat, n: nat)
    requires 1 <= m < n
    ensures Candidate(base, m) != Candidate(base, n)
  {
    if Candidate(base, m) == Candidate(base, n) {
      DecimalNonEmpty(n);
      if m > 1 {
        assert Candidate(base, m)[|base| + 1..] == Decimal(m);
        assert Candidate(base, n)[|base| + 1..] == Decimal(n);
        DecimalInjective(m, n);
      }
      assert false;
    }
  }

  // The first `n` candidates
  function Candidates(base: string, n: nat): set<string> {
    if n == 0 then {} else Candidates(base, n - 1) + {Candidate(base, n)}
  }

  lemma {:induction false} CandidatesIncludeOnly(base: string, n: nat, s: string)
    requires s in Candidates(base, n)
    ensures exists k :: 1 <= k <= n && s == Candidate(base, k)
  {
    if s != Candidate(base, n) {
      CandidatesIncludeOnly(base, n - 1, s);
    }
  }

  lemma {:induction false} CandidatesCount(base: string, n: nat)
    ensures |Candidates(base, n)| == n
  {
    if n > 0 {
      CandidatesCount(base, n - 1);
      if Candidate(base, n) in Candidates(base, n - 1) {
        CandidatesIncludeOnly(base, n - 1, Candidate(base, n));
        var k :| 1 <= k <= n - 1 && Candidate(base, n) == Candidate(base, k);
        CandidatesDiffer(base, k, n);
        assert false;
      }
    }
  }

  lemma SubsetCard<T>(a: set<T>, b: set<T>)
    requires a <= b
    ensures |a| <= |b|
  {
    assert b == a + (b - a);
  }

  /** Candidates are pairwise distinct, so no more of them can be taken than there are slugs. */
  lemma TakenCandidatesBounded(taken: set<string>, base: string, n: nat)
    requires forall k :: 1 <= k <= n ==> Candidate(base, k) in taken
    ensures n <= |taken|
  {
    forall s | s in Candidates(base, n) ensures s in taken {
      CandidatesIncludeOnly(base, n, s);
    }
    CandidatesCount(base, n);
    SubsetCard(Candidates(base, n), taken);
  }

  lemma {:induction false} SetNoLargerThanSeq(s: seq<string>)
    ensures |set x | x in s| <= |s|
  {
    if s != [] {
      SetNoLargerThanSeq(s[1..]);
      assert (set x | x in s) == {s[0]} + (set x | x in s[1..]);
    }
  }

  // The first free candidate from `suffix` on, looking past at most `fuel` taken ones
  function FirstFree(slugs: seq<string>, base: string, suffix: nat, fuel: nat): string
    decreases fuel
  {
    if fuel == 0 || Candidate(base, suffix) !in slugs then Candidate(base, suffix)
    else FirstFree(slugs, base, suffix + 1, fuel - 1)
  }

  function ChosenSlug(slugs: seq<string>, base: string): string {
    FirstFree(slugs, base, 1, |slugs|)
  }

  lemma {:induction false} FirstFreeIs(slugs: seq<string>, base: string, from: nat, fuel: nat) returns (suffix: nat)
    ensures FirstFree(slugs, base, from, fuel) == Candidate(base, suffix)
    ensures from <= suffix <= from + fuel
    ensures forall k :: from <= k < suffix ==> Candidate(base, k) in slugs
    ensures suffix < from + fuel ==> Candidate(base, suffix) !in slugs
    decreases fuel
  {
    if fuel == 0 || Candidate(base, from) !in slugs {
      suffix := from;
    } else {
      suffix := FirstFreeIs(slugs, base, from + 1, fuel - 1);
    }
  }

  /** For every finite menu the chosen slug is a free candidate, and every candidate before it is taken. */
  lemma ChosenSlugIsFirstFree(slugs: seq<string>, base: string) returns (suffix: nat)
    ensures 1 <= suffix <= |slugs| + 1
    ensures ChosenSlug(slugs, base) == Candidate(base, suffix) && Candidate(base, suffix) !in slugs
    ensures forall k :: 1 <= k < suffix ==> Candidate(base, k) in slugs
  {
    suffix := FirstFreeIs(slugs, base, 1, |slugs|);
    if Candidate(base, suffix) in slugs {
      TakenCandidatesBounded((set s | s in slugs), base, suffix);
      SetNoLargerThanSeq(slugs);
      assert false;
    }
  }

  datatype DishError = PriceNotPositive | OldPriceTooLow | CategoryNotFound | SlugTooLong

  datatype DishRequest = DishRequest(category: int, name: string, price: real, oldPrice: Option<real>)

  // The first of the handler's checks that a request fails
  function Problem(req: DishRequest, categories: set<int>): Option<DishError> {
    if req.price <= 0.0 then Some(PriceNotPositive)
    else if req.oldPrice.Some? && req.oldPrice.value < req.price then Some(OldPriceTooLow)
    else if req.category !in categories then Some(CategoryNotFound)
    else None
  }

  // The slug column is VARCHAR(255); a longer slug makes the INSERT fail
  const SLUG_MAX := 255

  function Create(slugs: seq<string>, base: string): (seq<string>, Result<string, DishError>) {
    var slug := ChosenSlug(slugs, base);
    if |slug| > SLUG_MAX then (slugs, Err(SlugTooLong)) else (slugs + [slug], Ok(slug))
  }

  /** Each of the checks is answered as the request and the categories demand, in this order. */
  lemma ProblemIs(req: DishRequest, categories: set<int>)
    ensures Problem(req, categories) == Some(PriceNotPositive) <==> req.price <= 0.0
    ensures Problem(req, categories) == Some(OldPriceTooLow) <==>
              req.price > 0.0 && exists before: real :: req.oldPrice == Some(before) && before < req.price
    ensures Problem(req, categories) == Some(CategoryNotFound) <==>
              && req.price > 0.0 && (forall before: real :: req.oldPrice == Some(before) ==> req.price <= before)
              && req.category !in categories
    ensures Problem(req, categories).Some? ==> Problem(req, categories).value in {PriceNotPositive, OldPriceTooLow, CategoryNotFound}
  {
    if req.oldPrice.Some? {
      var before: real := req.oldPrice.value;
      assert req.oldPrice == Some(before);
    }
  }

  /** Of three dishes of one name on an empty menu the second gets the suffix 2 and the third the suffix 3. */
  lemma SuffixesCountFromTwo(base: string)
    requires |base| <= 253
    ensures CreateAll([], [base, base, base]) == [base, base + "-2", base + "-3"]
  {
    var one, two := [base], [base, base + "-2"];
    assert Candidate(base, 1) == base && Candidate(base, 2) == base + "-2" && Candidate(base, 3) == base + "-3";
    CandidatesDiffer(base, 1, 2);
    CandidatesDiffer(base, 1, 3);
    CandidatesDiffer(base, 2, 3);
    var first := ChosenSlugIsFirstFree([], base);
    var second := ChosenSlugIsFirstFree(one, base);
    var third := ChosenSlugIsFirstFree(two, base);
    assert first == 1;
    assert second == 2;
    assert third == 3;
    var all := [base, base, base];
    assert all[..2] == [base, base] && [base, base][..1] == [base] && [base][..0] == [];
    assert CreateAll([], [base]) == Create([], base).0 == one;
    assert CreateAll([], [base, base]) == Create(one, base).0 == two;
    assert CreateAll([], all) == Create(two, base).0;
  }

  class Menu {
    const lower: string -> string
    var categories: set<int>
    var slugs: seq<string>

    constructor (lower: string -> string, categories: set<int>)
      ensures this.lower == lower && this.categories == categories && slugs == []
    {
      this.lower, this.categories, slugs := lower, categories, [];
    }

    /** The collision loop: it tries at most one candidate more than there are slugs. */
    method FreeSlug(base: string) returns (slug: string, suffix: nat)
      ensures slug == ChosenSlug(slugs, base) == Candidate(base, suffix)
      ensures 1 <= suffix <= |set s | s in slugs| + 1
    {
      ghost var free := ChosenSlugIsFirstFree(slugs, base);
      ghost var taken := set s | s in slugs;
      slug, suffix := base, 1;
      while slug in slugs
        invariant 1 <= suffix <= free && slug == Candidate(base, suffix)
        invariant forall k :: 1 <= k < suffix ==> Candidate(base, k) in slugs
        decreases free - suffix
      {
        suffix := suffix + 1;
        slug := base + "-" + Decimal(suffix);
      }
      TakenCandidatesBounded(taken, base, suffix - 1);
    }

    method CreateDish(req: DishRequest, fallback: string) returns (r: Result<string, DishError>)
      modifies this`slugs
      ensures var problem := Problem(req, categories);
              (slugs, r) == if problem.Some? then (old(slugs), Err(problem.value))
                            else Create(old(slugs), Slugify(lower, req.name, fallback))
    {
      if req.price <= 0.0 {
        return Err(PriceNotPositive);
      }
      if req.oldPrice.Some? && req.oldPrice.value < req.price {
        return Err(OldPriceTooLow);
      }
      if req.category !in categories {
        return Err(CategoryNotFound);
      }
      var slug, _ := FreeSlug(Slugify(lower, req.name, fallback));
      if |slug| > SLUG_MAX {
        return Err(SlugTooLong);
      }
      slugs := slugs + [slug];
      r := Ok(slug);
    }
  }

  function CreateAll(slugs: seq<string>, bases: seq<string>): seq<string> {
    if bases == [] then slugs else Create(CreateAll(slugs, bases[..|bases| - 1]), bases[|bases| - 1]).0
  }

  // Creations of the run that were refused for the length of their slug
  function Refused(slugs: seq<string>, bases: seq<string>): nat {
    if bases == [] then 0
    else
      var before := bases[..|bases| - 1];
      Refused(slugs, before) + if Create(CreateAll(slugs, before), bases[|bases| - 1]).1.Err? then 1 else 0
  }

  ghost predicate Unique(slugs: seq<string>) {
    forall i, j :: 0 <= i < j < |slugs| ==> slugs[i] != slugs[j]
  }

  /** Over any run of dish creations, repeated names included, slugs stay unique; all but the refused creations add one. */
  lemma {:induction false} SlugsStayUnique(slugs: seq<string>, bases: seq<string>)
    requires Unique(slugs)
    ensures Unique(CreateAll(slugs, bases)) && slugs <= CreateAll(slugs, bases)
    ensures |CreateAll(slugs, bases)| + Refused(slugs, bases) == |slugs| + |bases|
  {
    if bases != [] {
      var before, base := CreateAll(slugs, bases[..|bases| - 1]), bases[|bases| - 1];
      SlugsStayUnique(slugs, bases[..|bases| - 1]);
      var _ := ChosenSlugIsFirstFree(before, base);
    }
  }

  // ----- Which dishes the slug column refuses -----

  function Power10(k: nat): (p: nat)
    ensures p >= 1
  {
    if k == 0 then 1 else 10 * Power10(k - 1)
  }

  // The first suffix whose candidate no longer fits the column, for a base that fits itself
  function Room(base: string): nat {
    if |base| + 2 <= 255 then Power10(254 - |base|) else 2
  }

  lemma {:induction false} DecimalLengthIff(n: nat, k: nat)
    requires k >= 1
    ensures |Decimal(n)| <= k <==> n < Power10(k)
  {
    if n >= 10 {
      if k == 1 {
        DecimalNonEmpty(n / 10);
      } else {
        DecimalLengthIff(n / 10, k - 1);
      }
    }
  }

  // A candidate of a base that fits has room exactly below `Room`
  lemma CandidateFitsIff(base: string, suffix: nat)
    requires 1 <= suffix && |base| <= 255
    ensures |Candidate(base, suffix)| <= 255 <==> suffix < Room(base)
  {
    if |base| + 2 <= 255 {
      DecimalLengthIff(suffix, 254 - |base|);
      DecimalLengthIff(1, 254 - |base|);
    } else {
      DecimalNonEmpty(suffix);
    }
  }

  ghost predicate RoomTaken(slugs: seq<string>, base: string) {
    forall k :: 1 <= k < Room(base) ==> Candidate(base, k) in slugs
  }

  /**
   For every menu and base a dish is refused for its slug exactly when the base is overlong or every candidate with
   room is taken.
   */
  lemma SlugRefusedIff(slugs: seq<string>, base: string)
    ensures Create(slugs, base).1 == Err(SlugTooLong) <==> |base| > 255 || RoomTaken(slugs, base)
  {
    var suffix := ChosenSlugIsFirstFree(slugs, base);
    if |base| <= 255 {
      CandidateFitsIff(base, suffix);
    }
  }

  /** A base with no room for a suffix is refused exactly when it is taken. */
  lemma FullLengthBaseRefusedIff(slugs: seq<string>, base: string)
    requires 253 < |base| <= 255
    ensures Create(slugs, base).1 == Err(SlugTooLong) <==> base in slugs
  {
    SlugRefusedIff(slugs, base);
    assert Candidate(base, 1) == base;
  }

  /** A base with room for a hyphen and k digits is accepted by every menu of fewer than 10^k - 1 dishes. */
  lemma ShortBaseAccepted(slugs: seq<string>, base: string, k: nat)
    requires k >= 1 && |slugs| + 1 < Power10(k) && |base| + 1 + k <= 255
    ensures Create(slugs, base).1.Ok?
  {
    SlugRefusedIff(slugs, base);
    var suffix := ChosenSlugIsFirstFree(slugs, base);
    DecimalLengthIff(suffix, k);
    DecimalLengthIff(suffix, 254 - |base|);
  }

  // `n` times the same text
  function Times(text: string, n: nat): (r: string)
    ensures |r| == n * |text|
  {
    if n == 0 then [] else text + Times(text, n - 1)
  }

  /** The second dish of a name of 255 letters is refused. */
  lemma RepeatedLongNameRefused()
    ensures var base := Times("a", 255);
            Create([], base) == ([base], Ok(base)) && Create([base], base).1 == Err(SlugTooLong)
  {
    var base := Times("a", 255);
    FullLengthBaseRefusedIff([], base);
    FullLengthBaseRefusedIff([base], base);
    var suffix := ChosenSlugIsFirstFree([], base);
    assert suffix == 1 && [] + [base] == [base];
  }

  // A capital I with a dot lower-cases to an i and a combining dot, which is no slug character
  const DOTTED := "\U{0130}"
  const DOTTED_LOWER := "i\U{0307}"

  lemma {:induction false} HyphenateDotted(n: nat)
    ensures HyphenateRuns(Times(DOTTED_LOWER, n)) == Times("i-", n)
  {
    if n > 0 {
      var s, rest := Times(DOTTED_LOWER, n), Times(DOTTED_LOWER, n - 1);
      HyphenateDotted(n - 1);
      assert s == DOTTED_LOWER + rest && s[1..] == "\U{0307}" + rest && s[1..][1..] == rest;
      assert rest != [] ==> rest[0] == 'i';
      assert HyphenateRuns(s[1..]) == "-" + HyphenateRuns(rest);
      assert HyphenateRuns(s) == "i" + ("-" + Times("i-", n - 1));
    }
  }

  lemma {:induction false} TimesEnd(n: nat)
    requires n >= 1
    ensures var s := Times("i-", n);
            s[0] == 'i' && s[|s| - 1] == '-' && s[|s| - 2] == 'i'
  {
    if n > 1 {
      TimesEnd(n - 1);
    }
  }

  lemma {:induction false} TimesOnly(text: string, n: nat)
    requires |text| == 1
    ensures forall k :: 0 <= k < n ==> Times(text, n)[k] == text[0]
  {
    if n > 0 {
      TimesOnly(text, n - 1);
    }
  }

  lemma TrimDropsLast(s: string, drop: char -> bool)
    requires |s| >= 2 && !drop(s[0]) && drop(s[|s| - 1]) && !drop(s[|s| - 2])
    ensures Trim(s, drop) == s[..|s| - 1]
  {
    assert TrimLeft(s, drop) == s;
    var t := s[..|s| - 1];
    assert t[|t| - 1] == s[|s| - 2];
    assert TrimRight(s, drop) == TrimRight(t, drop) == t;
  }

  // The body of a name whose hyphenated form ends in one hyphen
  lemma BodyOfHyphenated(lower: string -> string, name: string, s: string)
    requires name != [] && !Space(name[0]) && !Space(name[|name| - 1]) && HyphenateRuns(lower(name)) == s
    requires |s| >= 2 && s[0] != '-' && s[|s| - 1] == '-' && s[|s| - 2] != '-'
    ensures SlugBody(lower, name) == s[..|s| - 1]
  {
    TrimKeeps(name, Space);
    SecondPassIsIdle(lower(name));
    TrimDropsLast(s, Hyphen);
  }

  lemma DottedBody(lower: string -> string, n: nat)
    requires n >= 2 && lower(Times(DOTTED, n)) == Times(DOTTED_LOWER, n)
    ensures |SlugBody(lower, Times(DOTTED, n))| == 2 * n - 1
  {
    TimesOnly(DOTTED, n);
    HyphenateDotted(n);
    TimesEnd(n);
    BodyOfHyphenated(lower, Times(DOTTED, n), Times("i-", n));
  }

  /** A name of 255 dotted capitals is refused even by an empty menu: its slug has 509 characters. */
  lemma OverlongSlugRefused(lower: string -> string, fallback: string)
    requires lower(Times(DOTTED, 255)) == Times(DOTTED_LOWER, 255)
    ensures |Slugify(lower, Times(DOTTED, 255), fallback)| == 509
    ensures Create([], Slugify(lower, Times(DOTTED, 255), fallback)).1 == Err(SlugTooLong)
  {
    DottedBody(lower, 255);
    SlugRefusedIff([], Slugify(lower, Times(DOTTED, 255), fallback));
  }
}
