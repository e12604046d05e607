/** Slugs: how a name becomes one, and how a free one is found. */
module Slugs {
  import opened Options
  import opened Sets

  predicate Alnum(c: char) { 'a' <= c <= 'z' || '0' <= c <= '9' }

  /** str.lower() of one character, as far as it matters here: besides A to Z, the Kelvin sign and the
      dotted capital I are the characters outside ASCII whose lower case contains a letter a to z. */
  function Lower(c: char): string {
    if 'A' <= c <= 'Z' then [c + (32 as char)]
    else if c == '\U{212A}' then "k"
    else if c == '\U{130}' then "i\U{307}"
    else [c]
  }

  function LowerAll(s: string): string {
    if s == "" then "" else Lower(s[0]) + LowerAll(s[1..])
  }

  /** The rest of a text after its leading run of characters outside a-z and 0-9. */
  function SkipJunk(s: string): (rest: string)
    ensures |rest| <= |s|
    ensures rest == "" || Alnum(rest[0])
    ensures s != "" && !Alnum(s[0]) ==> |rest| < |s|
  {
    if s == "" || Alnum(s[0]) then s else SkipJunk(s[1..])
  }

  /** Every run of characters outside a-z and 0-9 becomes one dash. */
  function Dashed(s: string): string
    decreases |s|
  {
    if s == "" then ""
    else if Alnum(s[0]) then [s[0]] + Dashed(s[1..])
    else "-" + Dashed(SkipJunk(s))
  }

  function StripLeft(s: string): string {
    if s != "" && s[0] == '-' then StripLeft(s[1..]) else s
  }

  function StripRight(s: string): string {
    if s != "" && s[|s| - 1] == '-' then StripRight(s[..|s| - 1]) else s
  }

  function Slugify(value: string): string {
    var slug := StripRight(StripLeft(Dashed(LowerAll(value))));
    if slug == "" then "org" else slug
  }

  /** Words of a-z and 0-9 joined by single dashes, or parts of such a text. */
  ghost predicate Neat(s: string) {
    && (forall i | 0 <= i < |s| :: Alnum(s[i]) || s[i] == '-')
    && (forall i | 0 <= i < |s| - 1 :: s[i] == '-' ==> s[i + 1] != '-')
  }

  /** ^[a-z0-9]+(?:-[a-z0-9]+)*$ */
  ghost predicate WellFormed(s: string) {
    s != "" && Neat(s) && s[0] != '-' && s[|s| - 1] != '-'
  }

  lemma {:induction false} DashedIsNeat(s: string)
    ensures Neat(Dashed(s))
    ensures s != "" && Alnum(s[0]) ==> Dashed(s) != "" && Dashed(s)[0] == s[0]
    decreases |s|
  {
    if s != "" {
      if Alnum(s[0]) {
        DashedIsNeat(s[1..]);
      } else {
        DashedIsNeat(SkipJunk(s));
      }
    }
  }

  lemma {:induction false} StripKeepsNeat(s: string)
    requires Neat(s)
    ensures Neat(StripLeft(s)) && (StripLeft(s) != "" ==> StripLeft(s)[0] != '-')
    ensures Neat(StripRight(s)) && (StripRight(s) != "" ==> StripRight(s)[|StripRight(s)| - 1] != '-')
    ensures StripRight(s) <= s
  {
    if s != "" {
      if s[0] == '-' {
        StripKeepsNeat(s[1..]);
      }
      if s[|s| - 1] == '-' {
        StripKeepsNeat(s[..|s| - 1]);
      }
    }
  }

  /** Any text at all becomes a well-formed slug. */
  lemma SlugifyIsWellFormed(value: string)
    ensures WellFormed(Slugify(value))
  {
    var dashed := Dashed(LowerAll(value));
    DashedIsNeat(LowerAll(value));
    StripKeepsNeat(dashed);
    StripKeepsNeat(StripLeft(dashed));
  }

  lemma {:induction false} LowerKeeps(s: string)
    requires forall i | 0 <= i < |s| :: Alnum(s[i]) || s[i] == '-'
    ensures LowerAll(s) == s
  {
    if s != "" {
      LowerKeeps(s[1..]);
      assert [s[0]] + s[1..] == s;
    }
  }

  lemma {:induction false} DashedKeeps(s: string)
    requires Neat(s)
    ensures Dashed(s) == s
    decreases |s|
  {
    if s != "" {
      var rest := s[1..];
      assert [s[0]] + rest == s;
      assert forall i | 0 <= i < |rest| :: rest[i] == s[i + 1];
      DashedKeeps(rest);
      if !Alnum(s[0]) {
        assert rest == "" || Alnum(rest[0]);
        assert SkipJunk(s) == rest;
      }
    }
  }

  /** A well-formed slug is left alone. */
  lemma SlugifyKeepsWellFormed(s: string)
    requires WellFormed(s)
    ensures Slugify(s) == s
  {
    LowerKeeps(s);
    DashedKeeps(s);
  }

  // ---- What a slug keeps -----------------------------------------------------------------------

  /** The characters that leave a trace in a slug, and the trace they leave. */
  predicate Kept(c: char) {
    'a' <= c <= 'z' || 'A' <= c <= 'Z' || '0' <= c <= '9' || c == '\U{212A}' || c == '\U{130}'
  }

  function Written(c: char): char {
    if 'A' <= c <= 'Z' then c - 'A' + 'a'
    else if c == '\U{212A}' then 'k'
    else if c == '\U{130}' then 'i'
    else c
  }

  /** `at` are the places from `from` on of the characters kept, in order. */
  ghost predicate AreKept(value: string, at: seq<nat>, from: nat) {
    && (forall i, j | 0 <= i < j < |at| :: at[i] < at[j])
    && (forall k | 0 <= k < |at| :: from <= at[k] < |value| && Kept(value[at[k]]))
    && (forall i | from <= i < |value| && Kept(value[i]) :: i in at)
  }

  /** The characters at these places, as they are written, with a dash between two of them exactly when
      something stands between them in the text, or the first leaves a dot behind. */
  ghost function Joined(value: string, at: seq<nat>): string
    requires forall k | 0 <= k < |at| :: at[k] < |value|
  {
    if at == [] then ""
    else
      var rest := at[1..];
      var dashed := rest != [] && (at[0] + 1 < rest[0] || value[at[0]] == '\U{130}');
      [Written(value[at[0]])] + (if dashed then "-" else "") + Joined(value, rest)
  }

  /** The letters and digits of a text, as the slug has them, and nothing at all for a text without any. */
  ghost function Trace(value: string, at: seq<nat>, from: nat): string
    requires AreKept(value, at, from)
  {
    if at != [] && from < at[0] then "-" + Joined(value, at) else Joined(value, at)
  }

  function Trimmed(s: string): string { StripRight(Dashed(s)) }

  lemma {:induction false} StripRightOfMore(c: char, s: string)
    ensures StripRight([c] + s) == if c == '-' && StripRight(s) == "" then "" else [c] + StripRight(s)
  {
    var t := [c] + s;
    if s != "" {
      assert t[|t| - 1] == s[|s| - 1];
      if s[|s| - 1] == '-' {
        assert t[..|t| - 1] == [c] + s[..|s| - 1];
        StripRightOfMore(c, s[..|s| - 1]);
      }
    } else {
      assert t[..0] == "";
    }
  }

  lemma TrimmedOfAlnum(c: char, s: string)
    requires Alnum(c)
    ensures Trimmed([c] + s) == [c] + Trimmed(s)
  {
    assert ([c] + s)[1..] == s;
    StripRightOfMore(c, Dashed(s));
  }

  /** A character that is not kept becomes a dash, unless one is there or nothing follows. */
  function DashBefore(s: string): string { if s == "" || s[0] == '-' then s else "-" + s }

  lemma TrimmedOfJunk(c: char, s: string)
    requires !Alnum(c)
    ensures Trimmed([c] + s) == DashBefore(Trimmed(s))
  {
    assert ([c] + s)[1..] == s;
    if s == "" {
      StripRightOfMore('-', "");
    } else if Alnum(s[0]) {
      assert SkipJunk([c] + s) == s;
      StripRightOfMore('-', Dashed(s));
      StripRightOfMore(s[0], Dashed(s[1..]));
    } else {
      assert SkipJunk([c] + s) == SkipJunk(s);
      StripRightOfMore('-', Dashed(SkipJunk(s)));
    }
  }

  lemma KeptFromNext(value: string, at: seq<nat>, from: nat)
    requires from < |value| && AreKept(value, at, from)
    ensures Kept(value[from]) ==> at != [] && at[0] == from && AreKept(value, at[1..], from + 1)
    ensures !Kept(value[from]) ==> AreKept(value, at, from + 1) && (at != [] ==> from < at[0])
  {
    if Kept(value[from]) {
      assert from in at;
      var rest := at[1..];
      forall i | from < i < |value| && Kept(value[i])
        ensures i in rest
      {
        var j :| 0 <= j < |at| && at[j] == i;
        assert rest[j - 1] == i;
      }
    }
  }

  lemma JoinedStarts(value: string, at: seq<nat>, from: nat)
    requires AreKept(value, at, from) && at != []
    ensures Joined(value, at) != "" && Joined(value, at)[0] != '-'
  {
  }

  lemma {:induction false} TrimmedIsTrace(value: string, at: seq<nat>, from: nat)
    requires from <= |value| && AreKept(value, at, from)
    ensures Trimmed(LowerAll(value[from..])) == Trace(value, at, from)
    decreases |value| - from
  {
    if from == |value| {
      assert at == [];
    } else {
      LowerOfRest(value, from);
      KeptFromNext(value, at, from);
      if Kept(value[from]) {
        TrimmedIsTrace(value, at[1..], from + 1);
        KeptIsWritten(value, at, from, LowerAll(value[from + 1..]));
      } else {
        TrimmedIsTrace(value, at, from + 1);
        if at != [] {
          JoinedStarts(value, at, from);
        }
        TrimmedOfJunk(value[from], LowerAll(value[from + 1..]));
      }
    }
  }

  lemma LowerOfRest(value: string, from: nat)
    requires from < |value|
    ensures LowerAll(value[from..]) == Lower(value[from]) + LowerAll(value[from + 1..])
  {
    assert value[from..] == [value[from]] + value[from + 1..];
  }

  lemma DashBeforeTrace(value: string, at: seq<nat>, from: nat)
    requires AreKept(value, at, from)
    ensures DashBefore(Trace(value, at, from)) == if at == [] then "" else "-" + Joined(value, at)
  {
    if at != [] {
      JoinedStarts(value, at, from);
    }
  }

  lemma JoinedOfFirst(value: string, at: seq<nat>, from: nat)
    requires AreKept(value, at, from) && at != []
    ensures var rest := Joined(value, at[1..]);
            var dashed := |at| > 1 && (at[0] + 1 < at[1] || value[at[0]] == '\U{130}');
            Joined(value, at) == [Written(value[at[0]])] + if dashed then "-" + rest else rest
  {
  }

  lemma WrittenIsAlnum(c: char)
    requires Kept(c)
    ensures Alnum(Written(c))
    ensures c != '\U{130}' ==> Lower(c) == [Written(c)]
    ensures c == '\U{130}' ==> Lower(c) == ['i'] + ['\U{307}']
  {
  }

  lemma KeptIsWritten(value: string, at: seq<nat>, from: nat, text: string)
    requires from < |value| && AreKept(value, at, from) && at != [] && at[0] == from && Kept(value[from])
    requires AreKept(value, at[1..], from + 1) && Trimmed(text) == Trace(value, at[1..], from + 1)
    ensures Trimmed(Lower(value[from]) + text) == Joined(value, at)
  {
    JoinedOfFirst(value, at, from);
    WrittenIsAlnum(value[from]);
    if value[from] == '\U{130}' {
      TrimmedOfDotted(text);
      DashBeforeTrace(value, at[1..], from + 1);
    } else {
      TrimmedOfAlnum(Written(value[from]), text);
    }
  }

  lemma TrimmedOfDotted(text: string)
    ensures Trimmed(['i'] + ['\U{307}'] + text) == ['i'] + DashBefore(Trimmed(text))
  {
    var rest := ['\U{307}'] + text;
    assert ['i'] + ['\U{307}'] + text == ['i'] + rest;
    TrimmedOfAlnum('i', rest);
    TrimmedOfJunk('\U{307}', text);
  }

  lemma {:induction false} StripsCommute(s: string)
    ensures StripRight(StripLeft(s)) == StripLeft(StripRight(s))
  {
    if s != "" {
      assert [s[0]] + s[1..] == s;
      StripRightOfMore(s[0], s[1..]);
      if s[0] == '-' {
        StripsCommute(s[1..]);
      }
    }
  }

  /** The slug of any text: its letters and digits in order, A to Z as a to z, with a dash between two of
      them exactly when something stood between them; "org" for a text that has none. */
  lemma SlugKeepsLettersAndDigits(value: string, at: seq<nat>)
    requires AreKept(value, at, 0)
    ensures Slugify(value) == if at == [] then "org" else Joined(value, at)
  {
    assert value[0..] == value;
    TrimmedIsTrace(value, at, 0);
    StripsCommute(Dashed(LowerAll(value)));
    if at != [] {
      JoinedStarts(value, at, 0);
      assert Trace(value, at, 0) == Joined(value, at) || Trace(value, at, 0)[1..] == Joined(value, at);
    }
  }

  /** Every text has such places. */
  /** Every text has such places. */
  lemma {:induction false} PlacesExist(value: string, from: nat) returns (at: seq<nat>)
    requires from <= |value|
    ensures AreKept(value, at, from)
    decreases |value| - from
  {
    at := [];
    if from < |value| {
      var rest := PlacesExist(value, from + 1);
      at := if Kept(value[from]) then [from] + rest else rest;
      forall i | from <= i < |value| && Kept(value[i])
        ensures i in at
      {
        assert i == from || i in rest;
      }
    }
  }

  // ---- Finding a free slug ---------------------------------------------------------------------

  function Digit(n: nat): char
    requires n < 10
  {
    '0' + (n as char)
  }

  function Decimal(n: nat): (s: string)
    ensures s != "" && forall i | 0 <= i < |s| :: '0' <= s[i] <= '9'
  {
    if n < 10 then [Digit(n)] else Decimal(n / 10) + [Digit(n % 10)]
  }

  /** The number that a row of digits stands for. */
  function Reading(s: string): int {
    if s == "" then 0 else 10 * Reading(s[..|s| - 1]) + (s[|s| - 1] as int - '0' as int)
  }

  /** Suffixes are ordinary decimal numbers. */
  lemma {:induction false} DecimalReads(n: nat)
    ensures Reading(Decimal(n)) == n
    ensures n > 0 ==> Decimal(n)[0] != '0'
  {
    if n >= 10 {
      DecimalReads(n / 10);
      assert Decimal(n)[..|Decimal(n)| - 1] == Decimal(n / 10);
    }
  }

  function Candidate(base: string, k: nat): string { base + "-" + Decimal(k) }

  lemma CandidatesDiffer(base: string, k: nat, j: nat)
    requires Candidate(base, k) == Candidate(base, j)
    ensures k == j
  {
    assert Candidate(base, k)[|base| + 1..] == Decimal(k);
    assert Candidate(base, j)[|base| + 1..] == Decimal(j);
    DecimalReads(k);
    DecimalReads(j);
  }

  lemma CandidateIsWellFormed(base: string, k: nat)
    requires WellFormed(base)
    ensures WellFormed(Candidate(base, k))
  {
    var s, digits := Candidate(base, k), Decimal(k);
    assert forall i | 0 <= i < |s| ::
        s[i] == if i < |base| then base[i] else if i == |base| then '-' else digits[i - |base| - 1];
  }

  /** The slug the loop looks at when the next suffix is `suffix`, and those it has seen before. */
  function Current(base: string, suffix: nat): string
    requires 2 <= suffix
  {
    if suffix == 2 then base else Candidate(base, suffix - 1)
  }

  ghost function Tried(base: string, suffix: nat): set<string>
    requires 2 <= suffix
  {
    set i | 2 <= i < suffix :: Current(base, i)
  }

  lemma CurrentsDiffer(base: string, i: nat, j: nat)
    requires 2 <= i < j
    ensures Current(base, i) != Current(base, j)
  {
    if i > 2 && Current(base, i) == Current(base, j) {
      CandidatesDiffer(base, i - 1, j - 1);
    }
  }

  /** Every turn looks at a new slug. */
  lemma TriedGrows(base: string, suffix: nat)
    requires 2 <= suffix
    ensures Current(base, suffix) !in Tried(base, suffix)
    ensures Tried(base, suffix + 1) == Tried(base, suffix) + {Current(base, suffix)}
  {
    forall i | 2 <= i < suffix
      ensures Current(base, i) != Current(base, suffix)
    {
      CurrentsDiffer(base, i, suffix);
    }
  }

  lemma {:induction false} TriedCount(base: string, suffix: nat)
    requires 2 <= suffix
    ensures |Tried(base, suffix)| == suffix - 2
  {
    if suffix == 2 {
      assert Tried(base, 2) == {};
    } else {
      TriedCount(base, suffix - 1);
      TriedGrows(base, suffix - 1);
    }
  }

  /** The base slug if it is free, else the smallest free suffix from 2. */
  ghost predicate FirstFree(taken: set<string>, base: string, slug: string) {
    if base !in taken then slug == base
    else exists k :: 2 <= k <= |taken| + 1 && slug == base + "-" + Decimal(k) && slug !in taken
                     && forall j | 2 <= j < k :: base + "-" + Decimal(j) in taken
  }

  lemma StopsAtFirstFree(taken: set<string>, base: string, suffix: nat)
    requires 2 <= suffix && Tried(base, suffix) <= taken && Current(base, suffix) !in taken
    ensures FirstFree(taken, base, Current(base, suffix))
  {
    TriedCount(base, suffix);
    SubsetSize(Tried(base, suffix), taken);
    if suffix > 2 {
      assert Current(base, 2) in Tried(base, suffix);
      forall j | 2 <= j < suffix - 1
        ensures Candidate(base, j) in taken
      {
        assert Current(base, j + 1) in Tried(base, suffix);
      }
      assert Current(base, suffix) == Candidate(base, suffix - 1);
      var k := suffix - 1;
      assert 2 <= k <= |taken| + 1 && Current(base, suffix) == base + "-" + Decimal(k);
      assert forall j | 2 <= j < k :: base + "-" + Decimal(j) == Candidate(base, j);
    }
  }

  /** `_unique_slug`, of organizations and of the APIs of one organization alike; `taken` are the slugs
      in use. Every turn of the loop finds another slug of `taken`, so it ends. */
  method UniqueSlug(taken: set<string>, desired: string) returns (slug: string)
    ensures slug !in taken && WellFormed(slug)
    ensures FirstFree(taken, Slugify(desired), slug)
  {
    var base := Slugify(desired);
    SlugifyIsWellFormed(desired);
    slug := base;
    var suffix := 2;
    TriedCount(base, 2);
    while slug in taken
      invariant 2 <= suffix && slug == Current(base, suffix) && WellFormed(slug)
      invariant Tried(base, suffix) <= taken
      decreases taken - Tried(base, suffix)
    {
      TriedGrows(base, suffix);
      CandidateIsWellFormed(base, suffix);
      slug := Candidate(base, suffix);
      suffix := suffix + 1;
    }
    StopsAtFirstFree(taken, base, suffix);
  }

  /** The slugs of one namespace: all organizations, or the APIs of one organization. */
  class Namespace {
    var taken: set<string>

    constructor ()
      ensures taken == {}
    {
      taken := {};
    }

    /** Creation: an explicit slug that is in use is a conflict; otherwise a free slug is stored, and
        an explicit one, which the request schema only admits well-formed, is stored unchanged. */
    method Create(name: string, slug: Option<string>) returns (stored: Option<string>)
      modifies this
      ensures stored.None? <==> slug.Some? && slug.value in old(taken)
      ensures stored.None? ==> taken == old(taken)
      ensures stored.Some? ==> stored.value !in old(taken) && taken == old(taken) + {stored.value}
      ensures stored.Some? ==> WellFormed(stored.value)
      ensures stored.Some? ==>
                var desired := if slug.Some? && slug.value != "" then slug.value else name;
                FirstFree(old(taken), Slugify(desired), stored.value)
      ensures stored.Some? && slug.Some? && WellFormed(slug.value) ==> stored == slug
    {
      if slug.Some? && slug.value in taken {
        return None;
      }
      var desired := if slug.Some? && slug.value != "" then slug.value else name;
      var unique := UniqueSlug(taken, desired);
      assert slug.Some? && WellFormed(slug.value) ==> Slugify(desired) == slug.value by {
        if slug.Some? && WellFormed(slug.value) {
          SlugifyKeepsWellFormed(slug.value);
        }
      }
      taken := taken + {unique};
      stored := Some(unique);
    }
  }
}
