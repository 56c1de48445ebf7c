/** Directory names of library entries: slugs, truncation, assembly and collision suffixes. */
module Naming {
  /** The characters a slug word is made of. */
  predicate IsWordChar(c: char) {
    'a' <= c <= 'z' || '0' <= c <= '9'
  }

  /** Lower-casing is a rune map about which only its effect on ASCII is known. */
  ghost predicate IsLowering(f: char -> char) {
    && (forall c: char | IsWordChar(c) || c == '-' :: f(c) == c)
    && (forall c: char | 'A' <= c <= 'Z' :: f(c) == (c as int + 32) as char)
  }

  type Lowering = f: char -> char | IsLowering(f)
    witness (c: char) => if 'A' <= c <= 'Z' then (c as int + 32) as char else c

  function Umlaut(c: char): string {
    if c == 'ä' || c == 'Ä' then "ae"
    else if c == 'ö' || c == 'Ö' then "oe"
    else if c == 'ü' || c == 'Ü' then "ue"
    else if c == 'ß' then "ss"
    else [c]
  }

  function Transliterate(s: string): string {
    if s == [] then [] else Umlaut(s[0]) + Transliterate(s[1..])
  }

  function LowerAll(s: string, lower: Lowering): (r: string)
    ensures |r| == |s|
    ensures forall i | 0 <= i < |s| :: r[i] == lower(s[i])
  {
    seq(|s|, i requires 0 <= i < |s| => lower(s[i]))
  }

  // ----- words ---------------------------------------------------------------

  predicate IsWord(w: string) {
    w != [] && forall i | 0 <= i < |w| :: IsWordChar(w[i])
  }

  predicate AllWords(ws: seq<string>) {
    forall i | 0 <= i < |ws| :: IsWord(ws[i])
  }

  /** The maximal runs of word characters, left to right: what a slug is meant to keep. */
  function Words(s: string): (ws: seq<string>)
    ensures AllWords(ws)
  {
    if s == [] then []
    else if !IsWordChar(s[0]) then Words(s[1..])
    else
      var rest := Words(s[1..]);
      if |s| > 1 && IsWordChar(s[1]) && rest != [] then [[s[0]] + rest[0]] + rest[1..] else [[s[0]]] + rest
  }

  function Join(ws: seq<string>): string {
    if ws == [] then []
    else if |ws| == 1 then ws[0]
    else ws[0] + "-" + Join(ws[1..])
  }

  /** Canonical slugs: empty, or words joined by single hyphens. */
  ghost predicate Canonical(s: string) {
    exists ws: seq<string> :: AllWords(ws) && s == Join(ws)
  }

  function Slug(s: string, lower: Lowering): string {
    Join(Words(LowerAll(Transliterate(s), lower)))
  }

  // ----- slug lemmas ---------------------------------------------------------

  lemma {:induction false} TransliterateAppend(a: string, b: string)
    ensures Transliterate(a + b) == Transliterate(a) + Transliterate(b)
  {
    hide Umlaut;
    if a == [] {
      assert a + b == b;
    } else {
      TransliterateAppend(a[1..], b);
      assert (a + b)[1..] == a[1..] + b;
      Associate(Umlaut(a[0]), Transliterate(a[1..]), Transliterate(b));
    }
  }

  lemma Associate(a: string, b: string, c: string)
    ensures a + (b + c) == (a + b) + c
  {
  }

  lemma TransliterateMiddle(a: string, c: char, b: string)
    ensures Transliterate(a + [c] + b) == Transliterate(a) + Umlaut(c) + Transliterate(b)
  {
    TransliterateAppend(a + [c], b);
    TransliterateAppend(a, [c]);
    assert [c][1..] == [];
    assert Transliterate([c]) == Umlaut(c);
  }

  /** Wherever it stands, a German letter is spelled with two ASCII letters, and any other character stays. */
  lemma GermanSpelling(a: string, c: char, b: string)
    ensures Transliterate(a + [c] + b) == Transliterate(a)
            + (match c
               case 'ä' => "ae" case 'ö' => "oe" case 'ü' => "ue" case 'ß' => "ss"
               case 'Ä' => "ae" case 'Ö' => "oe" case 'Ü' => "ue"
               case _ => [c])
            + Transliterate(b)
  {
    TransliterateMiddle(a, c, b);
  }

  lemma {:induction false} WordsSkip(p: string, c: char)
    requires !IsWordChar(c)
    ensures Words(p + [c]) == Words(p)
  {
    if p == [] {
      assert p + [c] == [c] && [c][1..] == [];
    } else {
      WordsSkip(p[1..], c);
      assert (p + [c])[1..] == p[1..] + [c];
    }
  }

  lemma {:induction false} WordsNew(p: string, c: char)
    requires IsWordChar(c) && (p == [] || !IsWordChar(p[|p| - 1]))
    ensures Words(p + [c]) == Words(p) + [[c]]
  {
    hide IsWordChar;
    if p == [] {
      assert p + [c] == [c] && [c][1..] == [];
    } else {
      WordsNew(p[1..], c);
      assert (p + [c])[1..] == p[1..] + [c];
    }
  }

  lemma {:induction false} WordsGrow(p: string, c: char)
    requires IsWordChar(c) && p != [] && IsWordChar(p[|p| - 1])
    ensures Words(p) != []
    ensures Words(p + [c]) == Words(p)[..|Words(p)| - 1] + [Words(p)[|Words(p)| - 1] + [c]]
  {
    hide IsWordChar;
    var tail := p[1..] + [c];
    assert (p + [c])[1..] == tail;
    if |p| == 1 {
      assert tail == [c] && [c][1..] == [] && p[1..] == [];
    } else {
      WordsGrow(p[1..], c);
      if IsWordChar(p[0]) && IsWordChar(p[1]) {
        GlueGrow(p[0], Words(p[1..]), c);
      }
    }
  }

  lemma GlueGrow(a: char, ws: seq<string>, c: char)
    requires ws != []
    ensures var grown := ws[..|ws| - 1] + [ws[|ws| - 1] + [c]];
            var glued := [[a] + ws[0]] + ws[1..];
            [[a] + grown[0]] + grown[1..] == glued[..|glued| - 1] + [glued[|glued| - 1] + [c]]
  {
    if |ws| == 1 {
      assert [a] + (ws[0] + [c]) == ([a] + ws[0]) + [c];
    }
  }

  lemma {:induction false} JoinSnoc(ws: seq<string>, w: string)
    ensures Join(ws + [w]) == if ws == [] then w else Join(ws) + "-" + w
  {
    if |ws| == 0 {
      assert ws + [w] == [w];
    } else {
      JoinSnoc(ws[1..], w);
      assert (ws + [w])[1..] == ws[1..] + [w];
      assert ws[0] + "-" + (Join(ws[1..]) + "-" + w) == (ws[0] + "-" + Join(ws[1..])) + "-" + w;
    }
  }

  lemma JoinGrow(init: seq<string>, last: string, c: char)
    ensures Join(init + [last + [c]]) == Join(init + [last]) + [c]
  {
    JoinSnoc(init, last);
    JoinSnoc(init, last + [c]);
    if init != [] {
      assert Join(init) + "-" + (last + [c]) == (Join(init) + "-" + last) + [c];
    }
  }

  lemma {:induction false} JoinEnds(ws: seq<string>)
    requires AllWords(ws) && ws != []
    ensures Join(ws) != [] && IsWordChar(Join(ws)[0]) && IsWordChar(Join(ws)[|Join(ws)| - 1])
  {
    if |ws| > 1 {
      JoinEnds(ws[1..]);
    }
  }

  function TrimRight(s: string, c: char): string {
    if s != [] && s[|s| - 1] == c then TrimRight(s[..|s| - 1], c) else s
  }

  predicate EndsInWord(p: string) {
    p != [] && IsWordChar(p[|p| - 1])
  }

  /** What the builder holds after the prefix p: a finished slug, plus a hyphen once a separator has
      followed the last word. */
  function Built(p: string): string {
    Join(Words(p)) + (if !EndsInWord(p) && Words(p) != [] then "-" else "")
  }

  lemma BuiltStep(p: string, c: char)
    ensures Built(p + [c]) == if IsWordChar(c) then Built(p) + [c] else if EndsInWord(p) then Built(p) + "-" else Built(p)
  {
    var ws := Words(p);
    if !IsWordChar(c) {
      WordsSkip(p, c);
      if EndsInWord(p) {
        WordsGrow(p, 'a');
      }
    } else if EndsInWord(p) {
      WordsGrow(p, c);
      JoinGrow(ws[..|ws| - 1], ws[|ws| - 1], c);
      assert ws[..|ws| - 1] + [ws[|ws| - 1]] == ws;
    } else {
      WordsNew(p, c);
      JoinSnoc(ws, [c]);
    }
  }

  lemma TrimBuilt(p: string)
    ensures TrimRight(Built(p), '-') == Join(Words(p))
  {
    var ws := Words(p);
    if ws != [] {
      JoinEnds(ws);
      if !EndsInWord(p) {
        assert Built(p)[..|Built(p)| - 1] == Join(ws);
      }
    }
  }

  /** The builder loop computes exactly the hyphen-joined words of the normalised input. */
  method ToSlug(s: string, lower: Lowering) returns (slug: string)
    ensures slug == Slug(s, lower)
  {
    var t := LowerAll(Transliterate(s), lower);
    var b: string := [];
    var prevWasSep := true;
    for i := 0 to |t|
      invariant prevWasSep <==> !EndsInWord(t[..i])
      invariant b == Built(t[..i])
    {
      assert t[..i + 1] == t[..i] + [t[i]];
      BuiltStep(t[..i], t[i]);
      if IsWordChar(t[i]) {
        b := b + [t[i]];
        prevWasSep := false;
      } else if !prevWasSep {
        b := b + "-";
        prevWasSep := true;
      }
    }
    assert t[..|t|] == t;
    TrimBuilt(t);
    slug := TrimRight(b, '-');
  }

  /** Canonical form read off the characters: hyphens only between two word characters. */
  ghost predicate SlugShape(s: string) {
    HyphensFollowed(s) && (s != [] ==> s[0] != '-')
  }

  ghost predicate HyphensFollowed(s: string) {
    && (forall i | 0 <= i < |s| :: IsWordChar(s[i]) || s[i] == '-')
    && (forall i | 0 <= i < |s| && s[i] == '-' :: i + 1 < |s| && IsWordChar(s[i + 1]))
  }

  lemma {:induction false} WordsOfWord(w: string, rest: string)
    requires IsWord(w) && (rest == [] || !IsWordChar(rest[0]))
    ensures Words(w + rest) == [w] + Words(rest)
  {
    hide IsWordChar;
    assert (w + rest)[1..] == w[1..] + rest;
    if |w| > 1 {
      WordsOfWord(w[1..], rest);
      assert [w[0]] + w[1..] == w;
    } else {
      assert w[1..] + rest == rest;
      assert w == [w[0]];
    }
  }

  /** Splitting undoes joining. */
  lemma {:induction false} WordsOfJoin(ws: seq<string>)
    requires AllWords(ws)
    ensures Words(Join(ws)) == ws
  {
    if |ws| == 1 {
      WordsOfWord(ws[0], []);
      assert ws[0] + [] == ws[0];
    } else if |ws| > 1 {
      var tail := "-" + Join(ws[1..]);
      WordsOfJoin(ws[1..]);
      WordsOfWord(ws[0], tail);
      assert tail[1..] == Join(ws[1..]);
      assert ws[0] + "-" + Join(ws[1..]) == ws[0] + tail;
    }
  }

  lemma JoinCons(w: string, c: char, ws: seq<string>)
    ensures ws != [] ==> Join([[c] + ws[0]] + ws[1..]) == [c] + Join(ws)
    ensures ws != [] ==> Join([w] + ws) == w + "-" + Join(ws)
  {
    if ws != [] {
      assert ([w] + ws)[1..] == ws;
      var grown := [[c] + ws[0]] + ws[1..];
      assert grown[1..] == ws[1..];
      if |ws| > 1 {
        assert ([c] + ws[0]) + "-" + Join(ws[1..]) == [c] + (ws[0] + "-" + Join(ws[1..]));
      }
    }
  }

  lemma {:induction false} JoinOfWords(s: string)
    requires HyphensFollowed(s)
    ensures Join(Words(s)) == if s != [] && s[0] == '-' then s[1..] else s
  {
    if |s| > 1 {
      assert HyphensFollowed(s[1..]);
      JoinOfWords(s[1..]);
      var rest := Words(s[1..]);
      JoinCons([s[0]], s[0], rest);
      if IsWordChar(s[0]) {
        assert s == [s[0]] + s[1..];
        if s[1] == '-' {
          assert s == [s[0]] + "-" + s[2..] && s[1..][1..] == s[2..];
          assert rest != [] by { assert s[2..] != []; }
        }
      }
    } else if |s| == 1 {
      assert s == [s[0]] && s[1..] == [];
    }
  }

  lemma {:induction false} JoinHasShape(ws: seq<string>)
    requires AllWords(ws)
    ensures SlugShape(Join(ws))
  {
    if |ws| > 1 {
      JoinHasShape(ws[1..]);
      JoinEnds(ws[1..]);
    }
  }

  /** The two readings of "canonical slug" agree. */
  lemma CanonicalIffShape(s: string)
    ensures Canonical(s) <==> SlugShape(s)
  {
    if SlugShape(s) {
      JoinOfWords(s);
      assert s == Join(Words(s));
    }
    if Canonical(s) {
      var ws: seq<string> :| AllWords(ws) && s == Join(ws);
      JoinHasShape(ws);
    }
  }

  lemma {:induction false} TransliterateAscii(s: string)
    requires forall i | 0 <= i < |s| :: s[i] as int < 128
    ensures Transliterate(s) == s
  {
    if s != [] {
      TransliterateAscii(s[1..]);
      assert s == [s[0]] + s[1..];
    }
  }

  /** A slug is canonical, carries exactly the words of the normalised input, and slugging again
      changes nothing. */
  lemma SlugCanonicalIdempotent(s: string, lower: Lowering)
    ensures SlugShape(Slug(s, lower))
    ensures Words(Slug(s, lower)) == Words(LowerAll(Transliterate(s), lower))
    ensures Slug(Slug(s, lower), lower) == Slug(s, lower)
  {
    var ws := Words(LowerAll(Transliterate(s), lower));
    JoinHasShape(ws);
    WordsOfJoin(ws);
    SlugFixesShaped(Slug(s, lower), lower);
  }

  lemma SlugFixesShaped(s: string, lower: Lowering)
    requires SlugShape(s)
    ensures Slug(s, lower) == s
  {
    TransliterateAscii(s);
    assert LowerAll(s, lower) == s;
    JoinOfWords(s);
  }

  // ----- truncation ----------------------------------------------------------

  /** Index of the last occurrence of c in s, or -1. */
  function LastIndex(s: string, c: char): (k: int)
    ensures -1 <= k < |s|
    ensures k >= 0 ==> s[k] == c
    ensures forall i | k < i < |s| :: s[i] != c
  {
    if s == [] then -1 else if s[|s| - 1] == c then |s| - 1 else LastIndex(s[..|s| - 1], c)
  }

  function TruncateSlug(s: string, maxLen: nat): string {
    if |s| <= maxLen then s
    else
      var cut := s[..maxLen];
      var idx := LastIndex(cut, '-');
      if idx > 0 then cut[..idx] else cut
  }

  lemma {:induction false} WordsSplit(s: string, k: nat)
    requires k < |s| && !IsWordChar(s[k])
    ensures Words(s) == Words(s[..k]) + Words(s[k + 1..])
  {
    if k > 0 {
      WordsSplit(s[1..], k - 1);
      assert s[1..][..k - 1] == s[..k][1..];
      assert s[1..][k..] == s[k + 1..];
    }
  }

  /** What is kept when a slug is cut: the longest proper prefix shorter than the limit that ends at
      a word boundary, with whole words only; or exactly `maxLen` characters of a first word that is
      at least that long. */
  lemma TruncateSlugExact(s: string, maxLen: nat)
    requires SlugShape(s) && 0 < maxLen
    ensures var r := TruncateSlug(s, maxLen);
            && SlugShape(r) && r <= s && |r| <= maxLen
            && (r == s <==> |s| <= maxLen)
            && (|s| > maxLen ==>
                  if exists k :: 0 < k < maxLen && s[k] == '-' then
                    && |r| < maxLen && s[|r|] == '-' && Words(r) <= Words(s)
                    && (forall k | |r| < k < maxLen :: s[k] != '-')
                  else |r| == maxLen && IsWord(r))
  {
    hide Words;
    if |s| > maxLen {
      var cut := s[..maxLen];
      var idx := LastIndex(cut, '-');
      assert idx != 0 by { assert cut[0] == s[0]; }
      if idx > 0 {
        WordsSplit(s, idx);
        assert cut[..idx] == s[..idx];
        assert s[idx] == cut[idx] == '-';
        assert forall k | idx < k < maxLen :: s[k] == cut[k];
      } else {
        assert forall k | 0 <= k < maxLen :: s[k] == cut[k];
      }
    }
  }

  // ----- assembled names -----------------------------------------------------

  const VENDOR_LIMIT := 30
  const DESCRIPTION_LIMIT := 40

  function FormatDirName(date: string, vendor: string, description: string, lower: Lowering): string {
    date + "_" + TruncateSlug(Slug(vendor, lower), VENDOR_LIMIT)
    + "_" + TruncateSlug(Slug(description, lower), DESCRIPTION_LIMIT)
  }

  /** The date pattern of the metadata schema: four, two and two digits joined by hyphens. */
  predicate IsDate(s: string) {
    && |s| == 10 && s[4] == '-' && s[7] == '-'
    && forall i | 0 <= i < 10 && i != 4 && i != 7 :: '0' <= s[i] <= '9'
  }

  /** Fields of s separated by c. */
  function Fields(s: string, c: char): (fs: seq<string>)
    ensures fs != []
  {
    if s == [] then [[]]
    else
      var rest := Fields(s[1..], c);
      if s[0] == c then [[]] + rest else [[s[0]] + rest[0]] + rest[1..]
  }

  lemma {:induction false} FieldsHead(a: string, c: char, rest: string)
    requires c !in a
    ensures Fields(a, c) == [a]
    ensures Fields(a + [c] + rest, c) == [a] + Fields(rest, c)
  {
    if a == [] {
      assert a + [c] + rest == [c] + rest;
    } else {
      FieldsHead(a[1..], c, rest);
      assert (a + [c] + rest)[1..] == a[1..] + [c] + rest;
      assert a == [a[0]] + a[1..];
    }
  }

  /** For schema-valid dates the name decodes to its three parts, re-encoding the parts gives the
      name back, and it fits in 82 characters. */
  lemma DirNameRoundTrip(date: string, vendor: string, description: string, lower: Lowering)
    requires IsDate(date)
    ensures var v := TruncateSlug(Slug(vendor, lower), 30);
            var d := TruncateSlug(Slug(description, lower), 40);
            var name := FormatDirName(date, vendor, description, lower);
            && SlugShape(v) && SlugShape(d)
            && Fields(name, '_') == [date, v, d]
            && FormatDirName(date, v, d, lower) == name
            && |name| <= 82
  {
    var v := TruncateSlug(Slug(vendor, lower), VENDOR_LIMIT);
    var d := TruncateSlug(Slug(description, lower), DESCRIPTION_LIMIT);
    SlugCanonicalIdempotent(vendor, lower);
    SlugCanonicalIdempotent(description, lower);
    TruncateSlugExact(Slug(vendor, lower), VENDOR_LIMIT);
    TruncateSlugExact(Slug(description, lower), DESCRIPTION_LIMIT);
    SlugFixesShaped(v, lower);
    SlugFixesShaped(d, lower);
    ThreeFields(date, v, d);
  }

  lemma ThreeFields(a: string, b: string, c: string)
    requires '_' !in a && '_' !in b && '_' !in c
    ensures Fields(a + "_" + b + "_" + c, '_') == [a, b, c]
  {
    FieldsHead(c, '_', []);
    FieldsHead(b, '_', c);
    FieldsHead(a, '_', b + "_" + c);
    assert a + "_" + b + "_" + c == a + "_" + (b + "_" + c);
  }

  /** Equal names come from equal dates and equal (truncated) slugs. */
  lemma DirNameInjective(d1: string, v1: string, t1: string, d2: string, v2: string, t2: string, lower: Lowering)
    requires IsDate(d1) && IsDate(d2)
    requires FormatDirName(d1, v1, t1, lower) == FormatDirName(d2, v2, t2, lower)
    ensures d1 == d2
    ensures TruncateSlug(Slug(v1, lower), 30) == TruncateSlug(Slug(v2, lower), 30)
    ensures TruncateSlug(Slug(t1, lower), 40) == TruncateSlug(Slug(t2, lower), 40)
  {
    DirNameRoundTrip(d1, v1, t1, lower);
    DirNameRoundTrip(d2, v2, t2, lower);
    var f, g := Fields(FormatDirName(d1, v1, t1, lower), '_'), Fields(FormatDirName(d2, v2, t2, lower), '_');
    assert f[0] == g[0] && f[1] == g[1] && f[2] == g[2];
  }

  // ----- collision suffixes --------------------------------------------------

  /** Decimal printing of a natural number. */
  function Decimal(n: nat): (s: string)
    ensures s != [] && forall i | 0 <= i < |s| :: '0' <= s[i] <= '9'
  {
    if n < 10 then [('0' as int + n) as char] else Decimal(n / 10) + [('0' as int + n % 10) as char]
  }

  function DecimalValue(s: string): int {
    if s == [] then 0 else 10 * DecimalValue(s[..|s| - 1]) + (s[|s| - 1] as int - '0' as int)
  }

  lemma {:induction false} DecimalRoundTrip(n: nat)
    ensures DecimalValue(Decimal(n)) == n
  {
    if n >= 10 {
      DecimalRoundTrip(n / 10);
      assert Decimal(n)[..|Decimal(n)| - 1] == Decimal(n / 10);
    } else {
      assert Decimal(n)[..0] == [];
    }
  }

  /** The i-th name tried, counting from 1: the base itself, then base-2, base-3, ... */
  function Candidate(base: string, i: nat): string {
    if i <= 1 then base else base + "-" + Decimal(i)
  }

  lemma {:induction false} DecimalLeads(n: nat)
    requires n > 0
    ensures Decimal(n)[0] != '0'
  {
    if n >= 10 {
      DecimalLeads(n / 10);
    }
  }

  /** The names tried, written out: the base, then the base, a hyphen, and the index in decimal digits, the most
      significant first and without leading zeros. */
  lemma CandidateSpelled(base: string, i: nat)
    ensures i <= 1 ==> Candidate(base, i) == base
    ensures i > 1 ==>
              var name := Candidate(base, i);
              |name| > |base| + 1 && name[..|base| + 1] == base + "-" && Prints(name[|base| + 1..], i)
  {
    if i > 1 {
      NumberSpelled(i);
      assert Candidate(base, i) == base + "-" + Decimal(i);
      assert Candidate(base, i)[|base| + 1..] == Decimal(i);
    }
  }

  /** Decimal digits without a leading zero whose value is n. */
  predicate Prints(s: string, n: nat) {
    s != [] && s[0] != '0' && (forall k | 0 <= k < |s| :: '0' <= s[k] <= '9') && DecimalValue(s) == n
  }

  lemma NumberSpelled(n: nat)
    requires n > 0
    ensures Prints(Decimal(n), n)
    ensures Decimal(2) == "2" && Decimal(10) == "10" && Decimal(123) == "123"
  {
    DecimalRoundTrip(n);
    DecimalLeads(n);
    assert Decimal(12) == "12";
  }

  lemma CandidateInjective(base: string, i: nat, j: nat)
    requires 1 <= i < j
    ensures Candidate(base, i) != Candidate(base, j)
  {
    DecimalRoundTrip(i);
    DecimalRoundTrip(j);
    var a, b := Candidate(base, i), Candidate(base, j);
    assert b[|base| + 1..] == Decimal(j);
    if i > 1 {
      assert a[|base| + 1..] == Decimal(i);
    }
  }

  /** Pigeonhole: n distinct candidates that are all taken need a set of at least n names. */
  lemma {:induction false} TakenPrefixBounded(base: string, taken: set<string>, n: nat)
    requires forall j | 1 <= j <= n :: Candidate(base, j) in taken
    ensures n <= |taken|
  {
    if n > 0 {
      var last := Candidate(base, n);
      forall j | 1 <= j <= n - 1 ensures Candidate(base, j) in taken - {last} {
        CandidateInjective(base, j, n);
      }
      TakenPrefixBounded(base, taken - {last}, n - 1);
    }
  }

  /** The least index, from i on, whose candidate is free. */
  function FreeIndex(base: string, taken: set<string>, i: nat := 1): (k: nat)
    requires 1 <= i && forall j | 1 <= j < i :: Candidate(base, j) in taken
    ensures i <= k <= |taken| + 1
    ensures Candidate(base, k) !in taken
    ensures forall j | 1 <= j < k :: Candidate(base, j) in taken
    decreases |taken| + 1 - i
  {
    TakenPrefixBounded(base, taken, i - 1);
    if Candidate(base, i) !in taken then i
    else
      assert i <= |taken| by { TakenPrefixBounded(base, taken, i); }
      FreeIndex(base, taken, i + 1)
  }

  function UniqueName(base: string, taken: set<string>): string {
    Candidate(base, FreeIndex(base, taken))
  }

  /** The unbounded suffix loop terminates for every finite set of taken names, and stops at the
      first free candidate. */
  method UniqueDirName(base: string, taken: set<string>) returns (name: string)
    ensures name == UniqueName(base, taken)
    ensures name !in taken
  {
    if base !in taken {
      return base;
    }
    assert Candidate(base, 1) == base;
    var i := 2;
    while true
      invariant 2 <= i
      invariant forall j | 1 <= j < i :: Candidate(base, j) in taken
      decreases |taken| + 2 - i
    {
      var candidate := base + "-" + Decimal(i);
      if candidate !in taken {
        LeastIndexUnique(base, taken, i);
        return candidate;
      }
      TakenPrefixBounded(base, taken, i);
      i := i + 1;
    }
  }

  lemma LeastIndexUnique(base: string, taken: set<string>, k: nat)
    requires 1 <= k && Candidate(base, k) !in taken
    requires forall j | 1 <= j < k :: Candidate(base, j) in taken
    ensures FreeIndex(base, taken) == k
  {
    var f := FreeIndex(base, taken);
    assert f >= k;
    assert f <= k;
  }

  /** If the existence test overlooks some taken names, the chosen name collides exactly when a
      candidate tried before the first really free one was overlooked. */
  lemma OverlookedCollides(base: string, taken: set<string>, overlooked: set<string>)
    ensures UniqueName(base, taken - overlooked) in taken <==>
            exists i :: 1 <= i < FreeIndex(base, taken) && Candidate(base, i) in overlooked
  {
    var seen := taken - overlooked;
    var k, f := FreeIndex(base, seen), FreeIndex(base, taken);
    if k >= f {
      assert forall i | 1 <= i < f :: Candidate(base, i) in seen;
      assert k == f;
    } else {
      assert Candidate(base, k) in taken;
    }
  }

  /** No entry name, suffixed or not, is a reserved name of the library directory or leaves it. */
  lemma EntryNameSafe(date: string, vendor: string, description: string, lower: Lowering, i: nat)
    requires IsDate(date)
    ensures var name := Candidate(FormatDirName(date, vendor, description, lower), i);
            name != "_quarantine" && name != "process.log" && '/' !in name
  {
    DirNameRoundTrip(date, vendor, description, lower);
    var base := FormatDirName(date, vendor, description, lower);
    var name := Candidate(base, i);
    assert base[0] == date[0] && name[0] == base[0];
    assert "_quarantine"[0] == '_' && "process.log"[0] == 'p';
    var v := TruncateSlug(Slug(vendor, lower), VENDOR_LIMIT);
    var d := TruncateSlug(Slug(description, lower), DESCRIPTION_LIMIT);
    assert '/' !in date && '/' !in v && '/' !in d;
  }
}
