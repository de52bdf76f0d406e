/** The newsletter subscriber schema of src/lib/models/watchlist.model.js, and the two email
    patterns of the newsletter: the schema's validator and the looser check of the subscribe
    route (src/app/api/newsletter/subscribe/route.js). */
module Watchlist {
  import opened Text
  import opened Schema
  import Numbers

  // ---------------------------------------------------------------- the subscribe route's pattern

  /** One way of reading `s` against `^\S+@\S+\.\S+$`: the `@` at `i`, the `.` at `j`, each of the
      three `\S+` runs non-empty. */
  predicate LooseSplit(s: string, i: int, j: int) {
    0 < i && i + 2 <= j && j + 2 <= |s| && s[i] == '@' && s[j] == '.'
  }

  /** `/^\S+@\S+\.\S+$/.test(s)`: no whitespace anywhere (`@` and `.` are not whitespace, and
      `\S` matches them too), and some `@` followed, past at least one character, by a `.`
      that is not last. */
  predicate LooseEmail(s: string) {
    NoSpace(s) && exists i, j | 0 <= i < j < |s| :: LooseSplit(s, i, j)
  }

  // ---------------------------------------------------------------- the schema's pattern

  predicate IsSep(c: char) {
    c == '.' || c == '-'
  }

  /** `\w+([.-]?\w+)*`: word characters, with single `.` or `-` separators between runs of them;
      that is, a non-empty text of word characters and separators that starts and ends with a
      word character and never has two separators side by side. */
  predicate DottedWord(s: string) {
    && |s| > 0 && IsWordChar(s[0]) && IsWordChar(s[|s| - 1])
    && (forall i :: 0 <= i < |s| ==> IsWordChar(s[i]) || IsSep(s[i]))
    && (forall i :: 0 <= i < |s| - 1 ==> IsWordChar(s[i]) || IsWordChar(s[i + 1]))
  }

  /** `(\.\w{2,3})+`: one or more groups, each a `.` and two or three word characters. */
  predicate TldGroups(t: string)
    decreases |t|
  {
    && |t| >= 3 && t[0] == '.' && IsWordChar(t[1]) && IsWordChar(t[2])
    && (|t| == 3 || TldGroups(t[3..]) || (IsWordChar(t[3]) && (|t| == 4 || TldGroups(t[4..]))))
  }

  /** The domain read as `\w+([.-]?\w+)*` up to `b`, then `(\.\w{2,3})+`. */
  predicate DomainSplit(d: string, b: int) {
    0 <= b <= |d| && DottedWord(d[..b]) && TldGroups(d[b..])
  }

  predicate Domain(d: string) {
    exists b | 0 <= b <= |d| :: DomainSplit(d, b)
  }

  /** The local part before the `@` at `a`, the domain after it. */
  predicate SchemaSplit(s: string, a: int) {
    0 <= a < |s| && s[a] == '@' && DottedWord(s[..a]) && Domain(s[a + 1..])
  }

  /** `/^\w+([.-]?\w+)*@\w+([.-]?\w+)*(\.\w{2,3})+$/.test(s)`. */
  predicate SchemaEmail(s: string) {
    exists a | 0 <= a < |s| :: SchemaSplit(s, a)
  }

  /** The characters of a run of groups are dots and word characters. */
  lemma {:induction false} TldChars(t: string)
    requires TldGroups(t)
    ensures forall i :: 0 <= i < |t| ==> t[i] == '.' || IsWordChar(t[i])
    decreases |t|
  {
    if |t| > 3 && TldGroups(t[3..]) {
      TldChars(t[3..]);
      assert forall i :: 3 <= i < |t| ==> t[i] == t[3..][i - 3];
    } else if |t| > 4 {
      TldChars(t[4..]);
      assert forall i :: 4 <= i < |t| ==> t[i] == t[4..][i - 4];
    }
  }

  /** A run of groups ends with its last group: a `.` and two or three word characters. */
  lemma {:induction false} TldEnding(t: string)
    requires TldGroups(t)
    ensures EndsWithGroup(t)
    decreases |t|
  {
    if |t| > 3 && TldGroups(t[3..]) {
      TldEnding(t[3..]);
      var u := t[3..];
      assert u[|u| - 3..] == t[|t| - 3..];
      assert |u| >= 4 ==> u[|u| - 4..] == t[|t| - 4..];
    } else if |t| > 4 {
      TldEnding(t[4..]);
      var u := t[4..];
      assert u[|u| - 3..] == t[|t| - 3..];
      assert |u| >= 4 ==> u[|u| - 4..] == t[|t| - 4..];
    }
  }

  /** Ends in `.` followed by exactly two or three word characters. */
  predicate EndsWithGroup(s: string) {
    (|s| >= 3 && s[|s| - 3] == '.' && IsWordChar(s[|s| - 2]) && IsWordChar(s[|s| - 1]))
    || (|s| >= 4 && s[|s| - 4] == '.' && IsWordChar(s[|s| - 3]) && IsWordChar(s[|s| - 2])
        && IsWordChar(s[|s| - 1]))
  }

  /** Every address the schema accepts is accepted by the subscribe route's check. */
  lemma SchemaImpliesLoose(s: string)
    requires SchemaEmail(s)
    ensures LooseEmail(s)
  {
    var a :| 0 <= a < |s| && SchemaSplit(s, a);
    var d := s[a + 1..];
    var b :| 0 <= b <= |d| && DomainSplit(d, b);
    LooseOfSplit(s, a, b);
  }

  lemma LooseOfSplit(s: string, a: int, b: int)
    requires 0 <= a < |s| && s[a] == '@' && DottedWord(s[..a]) && DomainSplit(s[a + 1..], b)
    ensures LooseEmail(s)
  {
    var d := s[a + 1..];
    var t := d[b..];
    var j := a + 1 + b;
    assert s[j] == t[0];
    assert LooseSplit(s, a, j);
    DottedWordNoSpace(d[..b]);
    TldChars(t);
    assert NoSpace(t);
    NoSpaceJoin(d, b);
    DottedWordNoSpace(s[..a]);
    assert NoSpace(s[a..]) by {
      forall i | 0 <= i < |s| - a ensures !IsSpace(s[a..][i]) {
        if i > 0 {
          assert s[a..][i] == d[i - 1];
        }
      }
    }
    NoSpaceJoin(s, a);
  }

  lemma DottedWordNoSpace(w: string)
    requires DottedWord(w)
    ensures NoSpace(w)
  {
  }

  /** The schema's shape: no whitespace, exactly one `@`, and a final `.` with two or three
      word characters after it. */
  lemma SchemaShape(s: string)
    requires SchemaEmail(s)
    ensures NoSpace(s)
    ensures exists a | 0 <= a < |s| :: s[a] == '@'
    ensures forall i, j :: 0 <= i < j < |s| ==> !(s[i] == '@' && s[j] == '@')
    ensures EndsWithGroup(s)
  {
    SchemaImpliesLoose(s);
    var a :| 0 <= a < |s| && SchemaSplit(s, a);
    SchemaOneAt(s, a);
    SchemaEnding(s, a);
  }

  lemma SchemaOneAt(s: string, a: int)
    requires SchemaSplit(s, a)
    ensures forall i | 0 <= i < |s| :: s[i] == '@' <==> i == a
  {
    var d := s[a + 1..];
    var b :| 0 <= b <= |d| && DomainSplit(d, b);
    var t := d[b..];
    TldChars(t);
    forall i | 0 <= i < |s| && i != a ensures s[i] != '@' {
      if i < a {
        assert s[i] == s[..a][i];
      } else if i < a + 1 + b {
        assert s[i] == d[..b][i - a - 1];
      } else {
        assert s[i] == t[i - a - 1 - b];
      }
    }
  }

  lemma SchemaEnding(s: string, a: int)
    requires SchemaSplit(s, a)
    ensures EndsWithGroup(s)
  {
    var d := s[a + 1..];
    var b :| 0 <= b <= |d| && DomainSplit(d, b);
    TldEnding(d[b..]);
    assert d[b..] == s[a + 1 + b..];
    EndingOfSuffix(s, a + 1 + b);
  }

  /** A text ends like its suffixes do. */
  lemma EndingOfSuffix(s: string, off: int)
    requires 0 <= off <= |s| && EndsWithGroup(s[off..])
    ensures EndsWithGroup(s)
  {
    var t := s[off..];
    assert t[|t| - 1] == s[|s| - 1] && t[|t| - 2] == s[|s| - 2] && t[|t| - 3] == s[|s| - 3];
    if |t| >= 4 {
      assert t[|t| - 4] == s[|s| - 4];
    }
  }

  /** The schema's pattern is strictly narrower: "a@b.c" passes the route's check, but its last
      group has a single letter. */
  lemma SchemaStrictlyStronger()
    ensures LooseEmail("a@b.c") && !SchemaEmail("a@b.c")
  {
    var s := "a@b.c";
    assert LooseSplit(s, 1, 3);
    forall a | 0 <= a < |s| ensures !SchemaSplit(s, a) {
      if a == 1 {
        var d := s[2..];
        assert d == "b.c";
        forall b | 0 <= b <= |d| ensures !DomainSplit(d, b) {
          var t := d[b..];
          if b == 1 {
            assert |t| == 2;
          } else if b < |d| {
            assert t[0] == d[b];
          }
        }
      }
    }
  }

  /** Whatever passes the route's check has no whitespace, so normalising it
      (`toLowerCase().trim()`) only lower-cases it. */
  lemma LooseNormalisation(s: string)
    requires LooseEmail(s)
    ensures Trim(ToLower(s)) == ToLower(s)
  {
    ToLowerFacts(s);
    TrimNoSpace(ToLower(s));
  }

  /** Lower-casing keeps an address acceptable to the schema, since it maps word characters to
      word characters and leaves `@`, `.` and `-` alone. */
  lemma SchemaEmailLower(s: string)
    requires SchemaEmail(s)
    ensures SchemaEmail(ToLower(s))
  {
    var l := ToLower(s);
    var a :| 0 <= a < |s| && SchemaSplit(s, a);
    ToLowerPrefix(s, a);
    DottedWordLower(s[..a]);
    ToLowerSuffix(s, a + 1);
    DomainLower(s[a + 1..]);
    assert l[a] == '@';
    assert SchemaSplit(l, a);
  }

  lemma DomainLower(d: string)
    requires Domain(d)
    ensures Domain(ToLower(d))
  {
    var b :| 0 <= b <= |d| && DomainSplit(d, b);
    var ld := ToLower(d);
    ToLowerPrefix(d, b);
    ToLowerSuffix(d, b);
    DottedWordLower(d[..b]);
    TldGroupsLower(d[b..]);
    assert DomainSplit(ld, b);
  }

  lemma DottedWordLower(s: string)
    requires DottedWord(s)
    ensures DottedWord(ToLower(s))
  {
    var l := ToLower(s);
    forall i | 0 <= i < |s| ensures IsSep(s[i]) ==> l[i] == s[i] {
    }
  }

  lemma {:induction false} TldGroupsLower(t: string)
    requires TldGroups(t)
    ensures TldGroups(ToLower(t))
    decreases |t|
  {
    var l := ToLower(t);
    if |t| > 3 && TldGroups(t[3..]) {
      TldGroupsLower(t[3..]);
      assert l[3..] == ToLower(t[3..]);
    } else if |t| > 4 {
      TldGroupsLower(t[4..]);
      assert l[4..] == ToLower(t[4..]);
    }
  }

  // ---------------------------------------------------------------- the schema

  const PreferenceCategories: seq<string> := ["tech", "startup", "vacancy", "finance", "news", "all"]
  const Frequencies: seq<string> := ["daily", "weekly", "monthly"]
  const DefaultFrequency := "weekly"
  const DefaultSource := "newsletter"
  const InvalidEmailMessage := "Please enter a valid email address"

  datatype Preferences = Preferences(categories: seq<string>, frequency: string)

  datatype Metadata = Metadata(ipAddress: Option<string>, userAgent: Option<string>, referrer: Option<string>)

  datatype Subscriber = Subscriber(
    email: string,
    isActive: bool,
    subscribedAt: int,
    source: string,
    preferences: Preferences,
    metadata: Metadata,
    createdAt: int,
    updatedAt: int)

  /** The `preferences` and `metadata` objects of a request. A key the request leaves out is
      `None`; keys the schema does not declare are dropped by the mapper and not modelled. */
  datatype PreferencesInput = PreferencesInput(categories: Option<seq<string>>, frequency: Option<string>)

  datatype MetadataInput = MetadataInput(ipAddress: Option<string>, userAgent: Option<string>, referrer: Option<string>)

  const NoPreferences := PreferencesInput(None, None)
  const NoMetadata := MetadataInput(None, None, None)

  /** The `email` setters: `trim` and `lowercase`. */
  function NormaliseEmail(email: string): (n: string)
    ensures Trim(n) == n && ToLower(n) == n
  {
    var n := Trim(ToLower(email));
    TrimIdempotent(ToLower(email));
    LowerOfTrim(ToLower(email));
    n
  }

  /** Trimming keeps a lower-case text lower-case. */
  lemma LowerOfTrim(s: string)
    requires ToLower(s) == s
    ensures ToLower(Trim(s)) == Trim(s)
  {
    var t := Trim(s);
    assert NoUpper(s) by {
      ToLowerFacts(s);
    }
    TrimFromInput(s);
    assert NoUpper(t);
    ToLowerFacts(t);
  }

  /** `{ ...old, ...new }` on `preferences`: the keys the request gives win. */
  function MergePreferences(prev: Preferences, input: PreferencesInput): (p: Preferences)
    ensures input.categories.Some? ==> p.categories == input.categories.value
    ensures input.categories.None? ==> p.categories == prev.categories
    ensures input.frequency.Some? ==> p.frequency == input.frequency.value
    ensures input.frequency.None? ==> p.frequency == prev.frequency
  {
    Preferences(input.categories.GetOr(prev.categories), input.frequency.GetOr(prev.frequency))
  }

  function MergeMetadata(prev: Metadata, input: MetadataInput): Metadata {
    Metadata(if input.ipAddress.Some? then input.ipAddress else prev.ipAddress,
             if input.userAgent.Some? then input.userAgent else prev.userAgent,
             if input.referrer.Some? then input.referrer else prev.referrer)
  }

  /** An empty request object keeps everything, and merging the same object twice is merging
      it once. */
  lemma MergeLaws(prev: Preferences, prevMeta: Metadata, input: PreferencesInput, meta: MetadataInput)
    ensures MergePreferences(prev, NoPreferences) == prev
    ensures MergeMetadata(prevMeta, NoMetadata) == prevMeta
    ensures MergePreferences(MergePreferences(prev, input), input) == MergePreferences(prev, input)
    ensures MergeMetadata(MergeMetadata(prevMeta, meta), meta) == MergeMetadata(prevMeta, meta)
  {
  }

  /** The defaults of a new record's nested paths: no categories (an array path starts empty)
      and the weekly frequency. */
  const DefaultPreferences := Preferences([], DefaultFrequency)
  const EmptyMetadata := Metadata(None, None, None)

  /** `Watchlist.create({ email, preferences, metadata })` at time `now`: email normalised,
      active, subscribed now, from the newsletter, nested paths filled from the request over
      their defaults. */
  function NewSubscriber(email: string, prefs: PreferencesInput, meta: MetadataInput, now: int): (s: Subscriber)
    ensures s.email == NormaliseEmail(email) && s.isActive && s.subscribedAt == now
    ensures s.source == DefaultSource
    ensures prefs.frequency.None? ==> s.preferences.frequency == DefaultFrequency
    ensures prefs.categories.None? ==> s.preferences.categories == []
  {
    Subscriber(NormaliseEmail(email), true, now, DefaultSource, MergePreferences(DefaultPreferences, prefs),
               MergeMetadata(EmptyMetadata, meta), now, now)
  }

  function CategoryErrors(cs: seq<string>, from: nat): (errs: seq<FieldError>)
    ensures errs == [] <==> forall k :: 0 <= k < |cs| ==> cs[k] in PreferenceCategories
    decreases |cs|
  {
    if cs == [] then []
    else
      var rest := CategoryErrors(cs[1..], from + 1);
      assert forall k :: 1 <= k < |cs| ==> cs[k] == cs[1..][k - 1];
      (if cs[0] in PreferenceCategories then [] else [NotInEnum("preferences.categories." + Numbers.DecimalString(from), cs[0])])
        + rest
  }

  /** The schema's validators: `email` required and matching the schema pattern, each category
      and the frequency within their lists. */
  function SubscriberErrors(s: Subscriber): seq<FieldError> {
    (if s.email == "" then [Required("email")]
     else if !SchemaEmail(s.email) then [Invalid("email", InvalidEmailMessage)]
     else [])
    + CategoryErrors(s.preferences.categories, 0)
    + (if s.preferences.frequency in Frequencies then []
       else [NotInEnum("preferences.frequency", s.preferences.frequency)])
  }

  /** What a stored record satisfies. */
  predicate ValidSubscriber(s: Subscriber) {
    SchemaEmail(s.email)
    && (forall k :: 0 <= k < |s.preferences.categories| ==> s.preferences.categories[k] in PreferenceCategories)
    && s.preferences.frequency in Frequencies
  }

  lemma SubscriberErrorsEmpty(s: Subscriber)
    ensures SubscriberErrors(s) == [] <==> ValidSubscriber(s)
  {
    if s.email == "" {
      assert !SchemaEmail(s.email);
    }
  }

  /** A record built from a well-formed request is valid; in particular the default preferences
      pass their enums. */
  lemma NewSubscriberValid(email: string, prefs: PreferencesInput, meta: MetadataInput, now: int)
    requires SchemaEmail(NormaliseEmail(email))
    requires prefs.categories.Some? ==> forall k :: 0 <= k < |prefs.categories.value| ==> prefs.categories.value[k] in PreferenceCategories
    requires prefs.frequency.Some? ==> prefs.frequency.value in Frequencies
    ensures ValidSubscriber(NewSubscriber(email, prefs, meta, now))
  {
  }
}
