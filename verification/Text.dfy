/** The string operations the services lean on: `strip`, `lower`, `split`, first-occurrence deduplication. */
module Text {
  import opened Models

  /** The characters Python's `str.strip` removes. */
  predicate IsSpace(c: char) {
    || '\t' <= c <= '\r'
    || '\U{1c}' <= c <= ' '
    || c == '\U{85}' || c == '\U{a0}' || c == '\U{1680}'
    || '\U{2000}' <= c <= '\U{200a}'
    || c == '\U{2028}' || c == '\U{2029}' || c == '\U{202f}' || c == '\U{205f}' || c == '\U{3000}'
  }

  /** The 29 code points for which Python's `str.isspace` holds. */
  lemma SpaceTable(c: char)
    ensures IsSpace(c)
       <==> c as int in {0x9, 0xa, 0xb, 0xc, 0xd, 0x1c, 0x1d, 0x1e, 0x1f, 0x20, 0x85, 0xa0, 0x1680, 0x2000, 0x2001,
                         0x2002, 0x2003, 0x2004, 0x2005, 0x2006, 0x2007, 0x2008, 0x2009, 0x200a, 0x2028, 0x2029,
                         0x202f, 0x205f, 0x3000}
  {
  }

  function StripLeft(s: string): string {
    if s != "" && IsSpace(s[0]) then StripLeft(s[1..]) else s
  }

  function StripRight(s: string): string {
    if s != "" && IsSpace(s[|s| - 1]) then StripRight(s[..|s| - 1]) else s
  }

  function Strip(s: string): string {
    StripRight(StripLeft(s))
  }

  predicate Trimmed(s: string) {
    s == "" || (!IsSpace(s[0]) && !IsSpace(s[|s| - 1]))
  }

  lemma {:induction false} StripLeftParts(s: string) returns (k: nat)
    ensures k <= |s| && StripLeft(s) == s[k..]
    ensures forall i | 0 <= i < k :: IsSpace(s[i])
    ensures k < |s| ==> !IsSpace(s[k])
  {
    if s != "" && IsSpace(s[0]) {
      var k' := StripLeftParts(s[1..]);
      k := k' + 1;
    } else {
      k := 0;
    }
  }

  lemma {:induction false} StripRightParts(s: string) returns (k: nat)
    ensures k <= |s| && StripRight(s) == s[..k]
    ensures forall i | k <= i < |s| :: IsSpace(s[i])
    ensures k > 0 ==> !IsSpace(s[k - 1])
  {
    if s != "" && IsSpace(s[|s| - 1]) {
      k := StripRightParts(s[..|s| - 1]);
    } else {
      k := |s|;
    }
  }

  /** Stripping cuts exactly the surrounding whitespace: what is left is trimmed, what was cut is all whitespace. */
  lemma {:induction false} StripCuts(s: string) returns (i: nat, j: nat)
    ensures i <= j <= |s| && Strip(s) == s[i..j] && Trimmed(Strip(s))
    ensures forall k | 0 <= k < i || j <= k < |s| :: IsSpace(s[k])
  {
    i := StripLeftParts(s);
    var n := StripRightParts(s[i..]);
    j := i + n;
    forall k | j <= k < |s| ensures IsSpace(s[k]) {
      assert s[k] == s[i..][k - i];
    }
  }

  /** Not blank: some character is not whitespace. */
  predicate HasInk(s: string) {
    exists i | 0 <= i < |s| :: !IsSpace(s[i])
  }

  lemma StripBlankIff(s: string)
    ensures Strip(s) == "" <==> !HasInk(s)
  {
    var i, j := StripCuts(s);
    if i < j {
      assert Strip(s)[0] == s[i];
    }
  }

  lemma StripTrimmed(s: string)
    requires Trimmed(s)
    ensures Strip(s) == s
  {
  }

  /** One character of `str.lower`, exact on every character whose lower case is an ASCII letter. */
  function LowerChar(c: char): char {
    if 'A' <= c <= 'Z' then (c as int + 32) as char
    else if c == '\U{212a}' then 'k'
    else c
  }

  function Lower(s: string): (r: string)
    ensures |r| == |s| && forall i | 0 <= i < |s| :: r[i] == LowerChar(s[i])
  {
    seq(|s|, i requires 0 <= i < |s| => LowerChar(s[i]))
  }

  /** `value or None` on strings. */
  function NonEmpty(s: string): Option<string> {
    if s == "" then None else Some(s)
  }

  /** `value.strip() if value and value.strip() else None`. */
  function StripOrNone(s: Option<string>): Option<string> {
    if s.Some? then NonEmpty(Strip(s.value)) else None
  }

  /** The elements of `xs` in order of first occurrence. */
  function Dedupe<T(==)>(xs: seq<T>): seq<T> {
    if xs == [] then []
    else
      var init := Dedupe(xs[..|xs| - 1]);
      if xs[|xs| - 1] in init then init else init + [xs[|xs| - 1]]
  }

  lemma {:induction false} DedupeElements<T(!new)>(xs: seq<T>)
    ensures forall x :: x in Dedupe(xs) <==> x in xs
    ensures NoDuplicates(Dedupe(xs))
  {
    if xs != [] {
      DedupeElements(xs[..|xs| - 1]);
      assert xs == xs[..|xs| - 1] + [xs[|xs| - 1]];
    }
  }

  /** Deduplication leaves a duplicate-free list alone. */
  lemma {:induction false} DedupeIdentity<T(!new)>(xs: seq<T>)
    requires NoDuplicates(xs)
    ensures Dedupe(xs) == xs
  {
    if xs != [] {
      var init := xs[..|xs| - 1];
      DedupeIdentity(init);
      assert xs == init + [xs[|xs| - 1]];
    }
  }

  function FirstIndex<T(==)>(xs: seq<T>, x: T): (i: nat)
    requires x in xs
    ensures i < |xs| && xs[i] == x && x !in xs[..i]
  {
    if xs[0] == x then 0 else 1 + FirstIndex(xs[1..], x)
  }

  /** Deduplication is stable: survivors keep the order of their first occurrences. */
  lemma {:induction false} DedupeStable<T(!new)>(xs: seq<T>, i: nat, j: nat)
    requires i < j < |Dedupe(xs)|
    ensures Dedupe(xs)[i] in xs && Dedupe(xs)[j] in xs
    ensures FirstIndex(xs, Dedupe(xs)[i]) < FirstIndex(xs, Dedupe(xs)[j])
  {
    var init, last := xs[..|xs| - 1], xs[|xs| - 1];
    DedupeElements(xs);
    DedupeElements(init);
    assert xs == init + [last];
    var d := Dedupe(init);
    FirstIndexOfPrefix(init, last, d[i]);
    if j < |d| {
      DedupeStable(init, i, j);
      FirstIndexOfPrefix(init, last, d[j]);
    }
  }

  lemma {:induction false} FirstIndexUnique<T>(xs: seq<T>, x: T, i: nat)
    requires i < |xs| && xs[i] == x && x !in xs[..i]
    ensures FirstIndex(xs, x) == i
  {
  }

  lemma FirstIndexOfPrefix<T>(init: seq<T>, last: T, x: T)
    requires x in init
    ensures x in init + [last] && FirstIndex(init + [last], x) == FirstIndex(init, x)
  {
    var i := FirstIndex(init, x);
    assert (init + [last])[..i] == init[..i];
    FirstIndexUnique(init + [last], x, i);
  }

  /** Strip every element, drop the empty ones: what both list normalizers do before deduplicating. */
  function StripAll(xs: seq<string>): seq<string> {
    if xs == [] then []
    else StripAll(xs[..|xs| - 1]) + (var v := Strip(xs[|xs| - 1]); if v == "" then [] else [v])
  }

  /** `_normalize_subjects` as a function. */
  function NormalizeSubjects(subjects: seq<string>): seq<string> {
    Dedupe(StripAll(subjects))
  }

  /** `str.split` on one separator character; never empty. */
  function Split(s: string, sep: char): (parts: seq<string>)
    ensures parts != []
  {
    if s == "" then [""]
    else
      var tail := Split(s[1..], sep);
      if s[0] == sep then [""] + tail else [[s[0]] + tail[0]] + tail[1..]
  }

  function Join(parts: seq<string>, sep: char): string {
    if parts == [] then ""
    else if |parts| == 1 then parts[0]
    else parts[0] + [sep] + Join(parts[1..], sep)
  }

  /** `split` is the inverse of `join`, and leaves no separator behind. */
  lemma {:induction false} SplitJoin(s: string, sep: char)
    ensures Join(Split(s, sep), sep) == s
    ensures forall i | 0 <= i < |Split(s, sep)| :: sep !in Split(s, sep)[i]
  {
    if s != "" {
      SplitJoin(s[1..], sep);
      var tail := Split(s[1..], sep);
      var parts := Split(s, sep);
      if s[0] == sep {
        assert parts[1..] == tail;
      } else {
        assert parts[1..] == tail[1..];
      }
      assert s == [s[0]] + s[1..];
    }
  }

  /** Texts without the separator come apart again as they were joined. */
  lemma {:induction false} JoinSplit(parts: seq<string>, sep: char)
    requires parts != [] && forall i | 0 <= i < |parts| :: sep !in parts[i]
    ensures Split(Join(parts, sep), sep) == parts
    decreases |parts|, |parts[0]|
  {
    var s := Join(parts, sep);
    if parts[0] != "" {
      var shorter := [parts[0][1..]] + parts[1..];
      JoinSplit(shorter, sep);
      assert shorter[1..] == parts[1..];
      assert s[0] == parts[0][0] && s[1..] == Join(shorter, sep);
      assert [parts[0][0]] + parts[0][1..] == parts[0];
      assert parts == [parts[0]] + parts[1..];
    } else if |parts| > 1 {
      JoinSplit(parts[1..], sep);
      assert s[0] == sep && s[1..] == Join(parts[1..], sep);
    }
  }

  /** `_split_csv` as a function; the empty string and None alike give no items. */
  function SplitCsv(value: Option<string>): seq<string> {
    if value.None? || value.value == "" then [] else NormalizeSubjects(Split(value.value, ','))
  }

  /** `_split_csv`: a growing list and a set of what it has seen. */
  method SplitCsvLoop(value: Option<string>) returns (items: seq<string>)
    ensures items == SplitCsv(value)
  {
    items := [];
    if value.None? || value.value == "" {
      return;
    }
    var parts := Split(value.value, ',');
    items := NormalizeSubjectsLoop(parts);
  }

  /** `_normalize_subjects`: the same loop over any list of subjects. */
  method NormalizeSubjectsLoop(subjects: seq<string>) returns (normalized: seq<string>)
    ensures normalized == NormalizeSubjects(subjects)
  {
    var seen: set<string> := {};
    normalized := [];
    for i := 0 to |subjects|
      invariant normalized == NormalizeSubjects(subjects[..i])
      invariant forall x :: x in seen <==> x in normalized
    {
      assert subjects[..i + 1][..i] == subjects[..i];
      var value := Strip(subjects[i]);
      DedupeStep(StripAll(subjects[..i]), value);
      if value != "" && value !in seen {
        normalized := normalized + [value];
        seen := seen + {value};
      }
    }
    assert subjects[..|subjects|] == subjects;
  }

  lemma DedupeStep<T>(xs: seq<T>, x: T)
    ensures Dedupe(xs + []) == Dedupe(xs)
    ensures Dedupe(xs + [x]) == if x in Dedupe(xs) then Dedupe(xs) else Dedupe(xs) + [x]
  {
    assert xs + [] == xs;
    assert (xs + [x])[..|xs|] == xs;
  }

  lemma {:induction false} StripAllTrimmed(xs: seq<string>)
    ensures forall x | x in StripAll(xs) :: x != "" && Trimmed(x)
  {
    if xs != [] {
      StripAllTrimmed(xs[..|xs| - 1]);
      var _, _ := StripCuts(xs[|xs| - 1]);
    }
  }

  lemma {:induction false} StripAllElements(xs: seq<string>, x: string)
    ensures x in StripAll(xs) <==> x != "" && exists i | 0 <= i < |xs| :: Strip(xs[i]) == x
  {
    if xs != [] {
      var n := |xs| - 1;
      StripAllElements(xs[..n], x);
      assert forall i | 0 <= i < n :: xs[..n][i] == xs[i];
    }
  }

  /** The normalized subjects are exactly the configured ones, stripped, without blank ones; each comes once. */
  lemma SubjectsAre(subjects: seq<string>, x: string)
    ensures x in NormalizeSubjects(subjects) <==> x != "" && exists i | 0 <= i < |subjects| :: Strip(subjects[i]) == x
    ensures NoDuplicates(NormalizeSubjects(subjects))
  {
    StripAllElements(subjects, x);
    DedupeElements(StripAll(subjects));
  }

  lemma {:induction false} StripAllIdentity(xs: seq<string>)
    requires forall i | 0 <= i < |xs| :: xs[i] != "" && Trimmed(xs[i])
    ensures StripAll(xs) == xs
  {
    if xs != [] {
      StripAllIdentity(xs[..|xs| - 1]);
      StripTrimmed(xs[|xs| - 1]);
      assert xs == xs[..|xs| - 1] + [xs[|xs| - 1]];
    }
  }

  /** Both normalizers are projections: a second pass, by either, changes nothing. */
  lemma NormalizeIdempotent(subjects: seq<string>)
    ensures NormalizeSubjects(NormalizeSubjects(subjects)) == NormalizeSubjects(subjects)
  {
    var once := NormalizeSubjects(subjects);
    StripAllTrimmed(subjects);
    DedupeElements(StripAll(subjects));
    forall i | 0 <= i < |once| ensures once[i] != "" && Trimmed(once[i]) {
      assert once[i] in once;
    }
    StripAllIdentity(once);
    DedupeIdentity(once);
  }

  /** What is read from a comma-separated text: the non-blank texts between commas, stripped, each once. */
  lemma CsvItemsAre(parts: seq<string>, x: string)
    requires parts != [] && forall i | 0 <= i < |parts| :: ',' !in parts[i]
    ensures x in SplitCsv(Some(Join(parts, ','))) <==> x != "" && exists i | 0 <= i < |parts| :: Strip(parts[i]) == x
    ensures NoDuplicates(SplitCsv(Some(Join(parts, ','))))
  {
    hide Join, NormalizeSubjects;
    JoinSplit(parts, ',');
    SubjectsAre(parts, x);
    if Join(parts, ',') == "" {
      assert Split("", ',') == [""] == parts;
      assert Strip("") == "";
    }
  }

  /** The first few of a normalized list are normalized too. */
  lemma NormalizedPrefix(subjects: seq<string>, n: nat)
    requires n <= |NormalizeSubjects(subjects)|
    ensures NormalizeSubjects(NormalizeSubjects(subjects)[..n]) == NormalizeSubjects(subjects)[..n]
  {
    var once := NormalizeSubjects(subjects);
    StripAllTrimmed(subjects);
    DedupeElements(StripAll(subjects));
    forall i | 0 <= i < n ensures once[..n][i] != "" && Trimmed(once[..n][i]) {
      assert once[i] in once;
    }
    StripAllIdentity(once[..n]);
    DedupeIdentity(once[..n]);
  }

  /** Subjects read from the environment come out of the bootstrap plan unchanged. */
  lemma BootstrapKeepsCsvSubjects(value: Option<string>)
    ensures NormalizeSubjects(SplitCsv(value)) == SplitCsv(value)
  {
    if value.Some? {
      NormalizeIdempotent(Split(value.value, ','));
    }
  }
}
