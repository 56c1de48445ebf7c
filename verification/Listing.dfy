/** The `list` command: reading the library and filtering by string comparison of dates. */
module Listing {
  import opened Basics
  import opened Naming
  import opened Pipeline
  import opened Local
  import LocalTheorems

  /** Lexicographic order of strings. */
  predicate Less(a: string, b: string) {
    if b == [] then false
    else if a == [] then true
    else a[0] < b[0] || (a[0] == b[0] && Less(a[1..], b[1..]))
  }

  /** Where two strings differ first: after a common prefix, at the end of the first or at a smaller character. */
  ghost predicate DiffersAt(a: string, b: string, k: nat) {
    && k <= |a| && k < |b| && a[..k] == b[..k]
    && (k == |a| || a[k] < b[k])
  }

  /** The order is the lexicographic one, for all strings, of whatever lengths. */
  lemma {:induction false} LessIff(a: string, b: string)
    ensures Less(a, b) <==> exists k: nat :: DiffersAt(a, b, k)
  {
    if a != [] && b != [] {
      LessIff(a[1..], b[1..]);
      if Less(a, b) {
        if a[0] < b[0] {
          assert DiffersAt(a, b, 0);
        } else {
          var k: nat :| DiffersAt(a[1..], b[1..], k);
          assert a[..k + 1] == [a[0]] + a[1..][..k] && b[..k + 1] == [b[0]] + b[1..][..k];
          assert DiffersAt(a, b, k + 1);
        }
      }
      if exists k: nat :: DiffersAt(a, b, k) {
        var k: nat :| DiffersAt(a, b, k);
        if k > 0 {
          assert a[..k][0] == b[..k][0];
          assert a[1..][..k - 1] == a[..k][1..] && b[1..][..k - 1] == b[..k][1..];
          assert DiffersAt(a[1..], b[1..], k - 1);
        }
      }
    } else if b != [] {
      assert DiffersAt(a, b, 0);
    }
  }

  /** Against a shorter string only as many characters count: `--since 2026-03` compares year and month. */
  lemma {:induction false} LessPrefix(a: string, b: string)
    requires |b| <= |a|
    ensures Less(a, b) <==> Less(a[..|b|], b)
  {
    if b != [] {
      LessPrefix(a[1..], b[1..]);
      assert a[..|b|][1..] == a[1..][..|b| - 1];
    }
  }

  // ----- dates as strings and as numbers ---------------------------------------------

  predicate IsDigit(c: char) {
    '0' <= c <= '9'
  }

  function Digit(c: char): int {
    c as int - '0' as int
  }

  /** The number the digits of s spell after those of `acc`, whatever stands between them. */
  function Value(s: string, acc: nat): nat {
    if s == [] then acc
    else if IsDigit(s[0]) then Value(s[1..], 10 * acc + Digit(s[0]))
    else Value(s[1..], acc)
  }

  /** Digits in the same places, and the same characters elsewhere. */
  ghost predicate SameShape(a: string, b: string) {
    |a| == |b| && forall i | 0 <= i < |a| :: (IsDigit(a[i]) && IsDigit(b[i])) || (!IsDigit(a[i]) && a[i] == b[i])
  }

  lemma {:induction false} SmallerStays(a: string, b: string, x: nat, y: nat)
    requires SameShape(a, b) && x < y
    ensures Value(a, x) < Value(b, y)
  {
    if a != [] {
      if IsDigit(a[0]) {
        SmallerStays(a[1..], b[1..], 10 * x + Digit(a[0]), 10 * y + Digit(b[0]));
      } else {
        SmallerStays(a[1..], b[1..], x, y);
      }
    }
  }

  /** For strings of one shape, the order of strings is the order of numbers. */
  lemma {:induction false} LessIsSmaller(a: string, b: string, acc: nat)
    requires SameShape(a, b)
    ensures Less(a, b) <==> Value(a, acc) < Value(b, acc)
  {
    if a != [] {
      var x, y := 10 * acc + Digit(a[0]), 10 * acc + Digit(b[0]);
      if a[0] < b[0] {
        SmallerStays(a[1..], b[1..], x, y);
      } else if b[0] < a[0] {
        SmallerStays(b[1..], a[1..], y, x);
      } else {
        LessIsSmaller(a[1..], b[1..], if IsDigit(a[0]) then x else acc);
      }
    }
  }

  datatype Date = Date(year: nat, month: nat, day: nat)

  function DateOf(s: string): Date
    requires IsDate(s)
  {
    Date(Value(s[..4], 0), Value(s[5..7], 0), Value(s[8..], 0))
  }

  predicate Before(a: Date, b: Date) {
    a.year < b.year || (a.year == b.year && (a.month < b.month || (a.month == b.month && a.day < b.day)))
  }

  lemma {:induction false} ValueAppend(a: string, b: string, acc: nat)
    ensures Value(a + b, acc) == Value(b, Value(a, acc))
  {
    if a == [] {
      assert a + b == b;
    } else {
      ValueAppend(a[1..], b, if IsDigit(a[0]) then 10 * acc + Digit(a[0]) else acc);
      assert (a + b)[1..] == a[1..] + b;
    }
  }

  lemma TwoDigits(s: string, acc: nat)
    requires |s| == 2 && IsDigit(s[0]) && IsDigit(s[1])
    ensures Value(s, acc) == 100 * acc + Value(s, 0)
    ensures Value(s, 0) < 100
  {
    var t := s[1..];
    assert t[1..] == [];
    assert Value(s, acc) == Value(t, 10 * acc + Digit(s[0]));
    assert Value(s, 0) == Value(t, Digit(s[0]));
  }

  lemma Dash(s: string, acc: nat)
    ensures Value("-" + s, acc) == Value(s, acc)
  {
    assert ("-" + s)[1..] == s;
  }

  lemma DateValue(s: string)
    requires IsDate(s)
    ensures var d := DateOf(s);
            Value(s, 0) == d.year * 10000 + d.month * 100 + d.day && d.month < 100 && d.day < 100
  {
    var y, m, d := s[..4], s[5..7], s[8..];
    var year := Value(y, 0);
    assert s == y + ("-" + (m + ("-" + d)));
    ValueAppend(y, "-" + (m + ("-" + d)), 0);
    Dash(m + ("-" + d), year);
    ValueAppend(m, "-" + d, year);
    Dash(d, Value(m, year));
    TwoDigits(m, year);
    TwoDigits(d, Value(m, year));
  }

  /** String comparison of schema-shaped dates is comparison of year, then month, then day. */
  lemma DateOrder(a: string, b: string)
    requires IsDate(a) && IsDate(b)
    ensures Less(a, b) <==> Before(DateOf(a), DateOf(b))
  {
    LessIsSmaller(a, b, 0);
    DateValue(a);
    DateValue(b);
  }

  // ----- reading the library ------------------------------------------------------------

  /** The command sees an entry if its metadata can be read and parses. */
  ghost predicate Sees(library: map<string, Folder>, unreadable: set<string>, d: string) {
    d in library && d != "_quarantine" && d !in unreadable && Complete(library[d])
  }

  ghost predicate Increasing(xs: seq<nat>) {
    forall k, l | 0 <= k < l < |xs| :: xs[k] < xs[l]
  }

  /** `metas` comes from the directories at the positions `at`: the ones the command sees, in order. */
  ghost predicate Read(library: map<string, Folder>, dirs: seq<string>, unreadable: set<string>, metas: seq<Metadata>, at: seq<nat>) {
    && |metas| == |at| && Increasing(at)
    && (forall k | 0 <= k < |at| ::
          at[k] < |dirs| && Sees(library, unreadable, dirs[at[k]]) && metas[k] == library[dirs[at[k]]].meta.value.m)
    && (forall i | 0 <= i < |dirs| :: i in at <==> Sees(library, unreadable, dirs[i]))
  }

  method WalkLibrary(library: map<string, Folder>, dirs: seq<string>, unreadable: set<string>) returns (metas: seq<Metadata>)
    requires forall i | 0 <= i < |dirs| :: dirs[i] in library
    ensures exists at :: Read(library, dirs, unreadable, metas, at)
  {
    metas := [];
    ghost var at: seq<nat> := [];
    assert dirs[..0] == [];
    for i := 0 to |dirs|
      invariant Read(library, dirs[..i], unreadable, metas, at)
    {
      var d := dirs[i];
      assert dirs[..i + 1] == dirs[..i] + [d];
      if d == "_quarantine" {
        continue;
      }
      var file := if d in unreadable then None else library[d].meta;
      if file.None? || file.value.Garbled? {
        continue;
      }
      metas, at := metas + [file.value.m], at + [i];
    }
    assert dirs[..|dirs|] == dirs;
  }

  // ----- the filters ------------------------------------------------------------------

  /** The command's flags; an empty string means the filter is off. */
  datatype Filter = Filter(docType: string, since: string, vendor: string, overdue: bool)

  predicate StartsWith(s: string, i: nat, t: string)
    requires i <= |s|
  {
    i + |t| <= |s| && s[i..i + |t|] == t
  }

  predicate Contains(s: string, t: string) {
    exists i | 0 <= i <= |s| :: StartsWith(s, i, t)
  }

  /** A substring match: something before, the text, something after. */
  lemma ContainsIff(s: string, t: string)
    ensures Contains(s, t) <==> exists before: string, after: string :: s == before + t + after
  {
    if Contains(s, t) {
      var i :| 0 <= i <= |s| && StartsWith(s, i, t);
      assert s == s[..i] + t + s[i + |t|..];
    }
    if exists before: string, after: string :: s == before + t + after {
      var before: string, after: string :| s == before + t + after;
      assert StartsWith(s, |before|, t);
    }
  }

  /** What the flags keep, by comparing strings. */
  predicate Kept(m: Metadata, f: Filter, today: string, lower: Lowering) {
    && (f.docType != "" ==> m.docType == f.docType)
    && (f.since != "" ==> !Less(m.documentDate, f.since))
    && (f.vendor != "" ==> Contains(LowerAll(m.vendor, lower), LowerAll(f.vendor, lower)))
    && (f.overdue ==> m.dueDate != "" && Less(m.dueDate, today))
  }

  /** What the flags ask for, in terms of calendar dates. */
  predicate Wanted(m: Metadata, f: Filter, today: string, lower: Lowering)
    requires SchemaValid(m) && IsDate(today) && (f.since != "" ==> IsDate(f.since))
  {
    && (f.docType != "" ==> m.docType == f.docType)
    && (f.since != "" ==> !Before(DateOf(m.documentDate), DateOf(f.since)))
    && (f.vendor != "" ==> Contains(LowerAll(m.vendor, lower), LowerAll(f.vendor, lower)))
    && (f.overdue ==> m.dueDate != "" && Before(DateOf(m.dueDate), DateOf(today)))
  }

  lemma KeptIsWanted(m: Metadata, f: Filter, today: string, lower: Lowering)
    requires SchemaValid(m) && IsDate(today) && (f.since != "" ==> IsDate(f.since))
    ensures Kept(m, f, today, lower) <==> Wanted(m, f, today, lower)
  {
    if f.since != "" {
      DateOrder(m.documentDate, f.since);
    }
    if m.dueDate != "" {
      DateOrder(m.dueDate, today);
    }
  }

  /** `results` are the elements of `metas` at the positions `at`: the ones the filters keep, in order. */
  ghost predicate Filtered(metas: seq<Metadata>, f: Filter, today: string, lower: Lowering, results: seq<Metadata>, at: seq<nat>) {
    && |results| == |at| && Increasing(at)
    && (forall k | 0 <= k < |at| :: at[k] < |metas| && results[k] == metas[at[k]])
    && (forall i | 0 <= i < |metas| :: i in at <==> Kept(metas[i], f, today, lower))
  }

  method RunList(metas: seq<Metadata>, f: Filter, today: string, lower: Lowering) returns (results: seq<Metadata>)
    ensures exists at :: Filtered(metas, f, today, lower, results, at)
  {
    hide Less, Contains;
    results := [];
    ghost var at: seq<nat> := [];
    for i := 0 to |metas|
      invariant Filtered(metas[..i], f, today, lower, results, at)
    {
      var m := metas[i];
      assert metas[..i + 1] == metas[..i] + [m];
      if f.docType != "" && m.docType != f.docType {
        continue;
      }
      if f.since != "" && Less(m.documentDate, f.since) {
        continue;
      }
      if f.vendor != "" && !Contains(LowerAll(m.vendor, lower), LowerAll(f.vendor, lower)) {
        continue;
      }
      if f.overdue && (m.dueDate == "" || !Less(m.dueDate, today)) {
        continue;
      }
      results, at := results + [m], at + [i];
    }
    assert metas[..|metas|] == metas;
  }

  // ----- the command --------------------------------------------------------------------

  /** `results` comes from the directories at the positions `at`: those the command sees and the filters keep,
      in listing order. */
  ghost predicate Answers(library: map<string, Folder>, dirs: seq<string>, unreadable: set<string>, f: Filter, today: string,
                          lower: Lowering, results: seq<Metadata>, at: seq<nat>) {
    && |results| == |at| && Increasing(at)
    && (forall k | 0 <= k < |at| ::
          at[k] < |dirs| && Sees(library, unreadable, dirs[at[k]]) && results[k] == library[dirs[at[k]]].meta.value.m)
    && (forall i | 0 <= i < |dirs| ::
          i in at <==> Sees(library, unreadable, dirs[i]) && Kept(library[dirs[i]].meta.value.m, f, today, lower))
  }

  lemma ReadThenFiltered(library: map<string, Folder>, dirs: seq<string>, unreadable: set<string>, f: Filter, today: string,
                         lower: Lowering, metas: seq<Metadata>, seen: seq<nat>, results: seq<Metadata>, kept: seq<nat>)
    requires Read(library, dirs, unreadable, metas, seen) && Filtered(metas, f, today, lower, results, kept)
    ensures Answers(library, dirs, unreadable, f, today, lower, results,
                    seq(|kept|, k requires 0 <= k < |kept| => seen[kept[k]]))
  {
    hide Kept;
    var at := seq(|kept|, k requires 0 <= k < |kept| => seen[kept[k]]);
    forall i | 0 <= i < |dirs|
      ensures i in at <==> Sees(library, unreadable, dirs[i]) && Kept(library[dirs[i]].meta.value.m, f, today, lower)
    {
      if i in seen {
        var j :| 0 <= j < |seen| && seen[j] == i;
        if j in kept {
          var k :| 0 <= k < |kept| && kept[k] == j;
          assert at[k] == i;
        }
        if i in at {
          var k :| 0 <= k < |at| && at[k] == i;
          assert seen[kept[k]] == seen[j] && kept[k] == j;
        }
      }
    }
  }

  method ListCommand(library: map<string, Folder>, dirs: seq<string>, unreadable: set<string>, f: Filter, today: string, lower: Lowering)
    returns (results: seq<Metadata>)
    requires forall i | 0 <= i < |dirs| :: dirs[i] in library
    ensures exists at :: Answers(library, dirs, unreadable, f, today, lower, results, at)
  {
    var metas := WalkLibrary(library, dirs, unreadable);
    results := RunList(metas, f, today, lower);
    ghost var seen :| Read(library, dirs, unreadable, metas, seen);
    ghost var kept :| Filtered(metas, f, today, lower, results, kept);
    ReadThenFiltered(library, dirs, unreadable, f, today, lower, metas, seen, results, kept);
  }

  /** On a library that only the pipeline has written, through any history of commands, faults and stops, an
      answer of the command is exactly the subsequence of readable complete entries that the calendar dates
      in the flags ask for, in listing order. */
  lemma PipelineListing(w: World, xs: seq<LocalTheorems.Happening>, dirs: seq<string>, unreadable: set<string>, f: Filter,
                        today: string, lower: Lowering, results: seq<Metadata>, at: seq<nat>)
    requires LocalTheorems.MetaValid(w) && IsDate(today) && (f.since != "" ==> IsDate(f.since))
    requires Answers(LocalTheorems.AfterAll(w, xs).library, dirs, unreadable, f, today, lower, results, at)
    ensures var library := LocalTheorems.AfterAll(w, xs).library;
            && Increasing(at) && |results| == |at|
            && (forall k | 0 <= k < |at| ::
                  at[k] < |dirs| && Sees(library, unreadable, dirs[at[k]]) && results[k] == library[dirs[at[k]]].meta.value.m)
            && (forall i | 0 <= i < |dirs| && Sees(library, unreadable, dirs[i]) ::
                  SchemaValid(library[dirs[i]].meta.value.m)
                  && (i in at <==> Wanted(library[dirs[i]].meta.value.m, f, today, lower)))
  {
    LocalTheorems.MetadataStaysValid(w, xs);
    var w' := LocalTheorems.AfterAll(w, xs);
    forall i | 0 <= i < |dirs| && Sees(w'.library, unreadable, dirs[i])
      ensures SchemaValid(w'.library[dirs[i]].meta.value.m)
              && (i in at <==> Wanted(w'.library[dirs[i]].meta.value.m, f, today, lower))
    {
      assert LocalTheorems.Filled(w', dirs[i]);
      KeptIsWanted(w'.library[dirs[i]].meta.value.m, f, today, lower);
    }
  }
}
