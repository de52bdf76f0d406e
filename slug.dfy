/** The slug derived from a post title (`generateSlug` in src/app/api/posts/route.js, repeated
    in src/lib/models/post.model.js). It runs five steps in order: the title is lower-cased;
    every character other than a-z, 0-9, space and hyphen is dropped; each run of whitespace
    becomes one hyphen; each run of hyphens becomes one hyphen; finally surrounding whitespace
    is trimmed, of which none is left by then. One function serves both copies. */
module Slug {
  import opened Text

  /** The characters `[a-z0-9 -]` that the first replacement keeps. */
  predicate IsKept(c: char) {
    IsLowerLetter(c) || IsDigit(c) || c == ' ' || c == '-'
  }

  /** The characters a slug is made of. */
  predicate IsSlugChar(c: char) {
    IsLowerLetter(c) || IsDigit(c) || c == '-'
  }

  predicate NoDoubleHyphen(s: string) {
    forall i :: 0 <= i < |s| - 1 ==> !(s[i] == '-' && s[i + 1] == '-')
  }

  /** What `generateSlug` can produce: only `a-z`, `0-9` and `-`, never two hyphens in a row. */
  predicate IsSlug(s: string) {
    (forall i :: 0 <= i < |s| ==> IsSlugChar(s[i])) && NoDoubleHyphen(s)
  }

  /** `.replace(/[^a-z0-9 -]/g, "")` */
  function KeepSlugChars(s: string): (r: string)
    ensures forall i :: 0 <= i < |r| ==> IsKept(r[i])
    ensures (forall i :: 0 <= i < |s| ==> IsKept(s[i])) ==> r == s
  {
    if s == [] then []
    else (if IsKept(s[0]) then [s[0]] else []) + KeepSlugChars(s[1..])
  }

  /** `.replace(/\s+/g, "-")`; `inRun` says the previous character was whitespace, so this
      run's hyphen has already been written. */
  function HyphenateSpaceRuns(s: string, inRun: bool): (r: string)
    ensures NoSpace(r)
    ensures forall i :: 0 <= i < |r| ==> r[i] == '-' || r[i] in s
  {
    if s == [] then []
    else if IsSpace(s[0]) then (if inRun then [] else "-") + HyphenateSpaceRuns(s[1..], true)
    else [s[0]] + HyphenateSpaceRuns(s[1..], false)
  }

  /** `.replace(/-+/g, "-")`; `inRun` says the previous character was a hyphen, so this run's
      hyphen has already been written. */
  function CollapseHyphenRuns(s: string, inRun: bool): (r: string)
    ensures NoDoubleHyphen(r)
    ensures inRun ==> r == [] || r[0] != '-'
    ensures forall i :: 0 <= i < |r| ==> r[i] in s
  {
    if s == [] then []
    else if s[0] == '-' then
      var rest := CollapseHyphenRuns(s[1..], true);
      (if inRun then [] else "-") + rest
    else
      [s[0]] + CollapseHyphenRuns(s[1..], false)
  }

  function GenerateSlug(title: string): string {
    Trim(CollapseHyphenRuns(HyphenateSpaceRuns(KeepSlugChars(ToLower(title)), false), false))
  }

  /** The last step, `trim()`, never has anything to do: no whitespace survives the
      second replacement. The slug is therefore the collapsed text itself. */
  lemma {:induction false} SlugTrimIsNoOp(title: string)
    ensures GenerateSlug(title)
         == CollapseHyphenRuns(HyphenateSpaceRuns(KeepSlugChars(ToLower(title)), false), false)
  {
    var h := HyphenateSpaceRuns(KeepSlugChars(ToLower(title)), false);
    var c := CollapseHyphenRuns(h, false);
    assert NoSpace(c) by {
      forall i | 0 <= i < |c| ensures !IsSpace(c[i]) {
        var j :| 0 <= j < |h| && h[j] == c[i];
      }
    }
    TrimNoSpace(c);
  }

  /** Every slug consists of `a-z`, `0-9` and `-` only, with no two hyphens in a row. */
  lemma {:induction false} SlugShape(title: string)
    ensures IsSlug(GenerateSlug(title))
  {
    SlugTrimIsNoOp(title);
    var l := ToLower(title);
    var k := KeepSlugChars(l);
    var h := HyphenateSpaceRuns(k, false);
    var c := CollapseHyphenRuns(h, false);
    forall i | 0 <= i < |c| ensures IsSlugChar(c[i]) {
      var j :| 0 <= j < |h| && h[j] == c[i];
      if h[j] != '-' {
        var m :| 0 <= m < |k| && k[m] == h[j];
        assert IsKept(k[m]) && !IsSpace(h[j]);
      }
    }
  }

  lemma {:induction false} HyphenateNoSpace(s: string, inRun: bool)
    requires NoSpace(s)
    ensures HyphenateSpaceRuns(s, inRun) == s
  {
    if s != [] {
      HyphenateNoSpace(s[1..], false);
    }
  }

  lemma {:induction false} CollapseNoDouble(s: string, inRun: bool)
    requires NoDoubleHyphen(s)
    requires inRun ==> s == [] || s[0] != '-'
    ensures CollapseHyphenRuns(s, inRun) == s
  {
    if s != [] {
      CollapseNoDouble(s[1..], s[0] == '-');
    }
  }

  /** A slug is its own slug. */
  lemma {:induction false} SlugFixedPoint(s: string)
    requires IsSlug(s)
    ensures GenerateSlug(s) == s
  {
    ToLowerFacts(s);
    assert ToLower(s) == s;
    assert KeepSlugChars(s) == s;
    HyphenateNoSpace(s, false);
    CollapseNoDouble(s, false);
    SlugTrimIsNoOp(s);
  }

  /** Generating a slug from a slug changes nothing. */
  lemma SlugIdempotent(title: string)
    ensures GenerateSlug(GenerateSlug(title)) == GenerateSlug(title)
  {
    SlugShape(title);
    SlugFixedPoint(GenerateSlug(title));
  }

  /** A title beginning with a space or a hyphen gives a slug beginning with a hyphen:
      `trim()` removes only whitespace, and no whitespace is left to remove. */
  lemma {:induction false} SlugKeepsLeadingHyphen(title: string)
    requires title != [] && (title[0] == ' ' || title[0] == '-')
    ensures GenerateSlug(title) != [] && GenerateSlug(title)[0] == '-'
  {
    SlugTrimIsNoOp(title);
    var l := ToLower(title);
    assert l[0] == title[0];
    var k := KeepSlugChars(l);
    assert k == [l[0]] + KeepSlugChars(l[1..]);
    var h := HyphenateSpaceRuns(k, false);
    assert h[0] == '-';
  }

  /** A title with no letter, digit, space or hyphen gives the empty slug. */
  lemma {:induction false} SlugEmptyWhenNothingKept(title: string)
    requires forall i :: 0 <= i < |title| ==> !IsKept(LowerChar(title[i]))
    ensures GenerateSlug(title) == ""
  {
    SlugTrimIsNoOp(title);
    var l := ToLower(title);
    KeptFromInput(l);
  }

  lemma {:induction false} KeptFromInput(s: string)
    ensures forall i :: 0 <= i < |KeepSlugChars(s)| ==> KeepSlugChars(s)[i] in s
  {
    if s != [] {
      KeptFromInput(s[1..]);
    }
  }

  /** The empty slug comes only from titles with nothing to keep, and trimming the title
      does not change that. */
  lemma {:induction false} SlugEmptyOfTrimmed(title: string)
    requires GenerateSlug(title) == ""
    ensures GenerateSlug(Trim(title)) == ""
  {
    SlugTrimIsNoOp(title);
    var l := ToLower(title);
    forall i | 0 <= i < |title| ensures !IsKept(LowerChar(title[i])) {
      if IsKept(LowerChar(title[i])) {
        KeptNonEmpty(l, i);
        var k := KeepSlugChars(l);
        HyphenateNonEmpty(k, false);
        CollapseNonEmpty(HyphenateSpaceRuns(k, false), false);
        assert false;
      }
    }
    TrimFromInput(title);
    var t := Trim(title);
    forall i | 0 <= i < |t| ensures !IsKept(LowerChar(t[i])) {
      var j :| 0 <= j < |title| && title[j] == t[i];
    }
    SlugEmptyWhenNothingKept(t);
  }

  lemma {:induction false} KeptNonEmpty(s: string, i: nat)
    requires i < |s| && IsKept(s[i])
    ensures KeepSlugChars(s) != []
  {
    if i > 0 {
      KeptNonEmpty(s[1..], i - 1);
    }
  }

  lemma {:induction false} HyphenateNonEmpty(s: string, inRun: bool)
    requires s != []
    requires inRun ==> !IsSpace(s[0])
    ensures HyphenateSpaceRuns(s, inRun) != []
  {
  }

  lemma {:induction false} CollapseNonEmpty(s: string, inRun: bool)
    requires s != []
    requires inRun ==> s[0] != '-'
    ensures CollapseHyphenRuns(s, inRun) != []
  {
  }

  lemma {:induction false} KeepAppend(a: string, b: string)
    ensures KeepSlugChars(a + b) == KeepSlugChars(a) + KeepSlugChars(b)
  {
    if a == [] {
      assert a + b == b;
    } else {
      KeepAppend(a[1..], b);
      KeepAppendStep(a, b);
    }
  }

  lemma KeepAppendStep(a: string, b: string)
    requires a != []
    requires KeepSlugChars(a[1..] + b) == KeepSlugChars(a[1..]) + KeepSlugChars(b)
    ensures KeepSlugChars(a + b) == KeepSlugChars(a) + KeepSlugChars(b)
  {
    KeepCons(a, b);
    Regroup(if IsKept(a[0]) then [a[0]] else [], KeepSlugChars(a[1..]), KeepSlugChars(b),
            KeepSlugChars(a + b), KeepSlugChars(a));
  }

  /** Associativity of concatenation, stated on names so that no text function is unfolded. */
  lemma Regroup(h: string, x: string, y: string, whole: string, front: string)
    requires whole == h + (x + y) && front == h + x
    ensures whole == front + y
  {
  }

  /** One step of `KeepAppend`: the head of `a` is kept or dropped on its own. */
  lemma KeepCons(a: string, b: string)
    requires a != []
    ensures KeepSlugChars(a + b) == (if IsKept(a[0]) then [a[0]] else []) + KeepSlugChars(a[1..] + b)
    ensures KeepSlugChars(a) == (if IsKept(a[0]) then [a[0]] else []) + KeepSlugChars(a[1..])
  {
    assert (a + b)[1..] == a[1..] + b;
    assert (a + b)[0] == a[0];
  }

  lemma {:induction false} HyphenateAppend(a: string, b: string, inRun: bool)
    requires a != [] && !IsSpace(a[|a| - 1])
    ensures HyphenateSpaceRuns(a + b, inRun) == HyphenateSpaceRuns(a, inRun) + HyphenateSpaceRuns(b, false)
  {
    assert (a + b)[1..] == a[1..] + b;
    if |a| > 1 {
      HyphenateAppend(a[1..], b, IsSpace(a[0]));
    }
  }

  /** The example title: punctuation vanishes, each space becomes one hyphen. */
  lemma SlugExample()
    ensures GenerateSlug("Hello, World! 2024") == "hello-world-2024"
  {
    ExampleLower();
    ExampleKeep();
    ExampleHyphenate();
    ExampleCollapse();
    SlugOfSteps("Hello, World! 2024", "hello, world! 2024", "hello world 2024", "hello-world-2024", "hello-world-2024");
  }

  /** Chains the four steps of `GenerateSlug` through named intermediate texts. */
  lemma SlugOfSteps(title: string, l: string, k: string, h: string, c: string)
    requires ToLower(title) == l && KeepSlugChars(l) == k
    requires HyphenateSpaceRuns(k, false) == h && CollapseHyphenRuns(h, false) == c
    ensures GenerateSlug(title) == c
  {
    SlugTrimIsNoOp(title);
  }

  lemma ExampleCollapse()
    ensures CollapseHyphenRuns("hello-world-2024", false) == "hello-world-2024"
  {
    CollapseNoDouble("hello-world-2024", false);
  }

  lemma ExampleLower()
    ensures ToLower("Hello, World! 2024") == "hello, world! 2024"
  {
  }

  lemma ExampleKeep()
    ensures KeepSlugChars("hello, world! 2024") == "hello world 2024"
  {
    ExampleKeepInput();
    KeepAppend3("hello,", " world!", " 2024");
    KeepFirst();
    KeepSecond();
    KeepThird();
    ExampleKeepOutput();
  }

  lemma ExampleKeepInput()
    ensures "hello, world! 2024" == "hello," + (" world!" + " 2024")
  {
  }

  lemma ExampleKeepOutput()
    ensures "hello" + (" world" + " 2024") == "hello world 2024"
  {
  }

  lemma KeepAppend3(a: string, b: string, c: string)
    ensures KeepSlugChars(a + (b + c)) == KeepSlugChars(a) + (KeepSlugChars(b) + KeepSlugChars(c))
  {
    KeepAppend(a, b + c);
    KeepAppend(b, c);
  }

  lemma KeepFirst()
    ensures KeepSlugChars("hello,") == "hello"
  {
  }

  lemma KeepSecond()
    ensures KeepSlugChars(" world!") == " world"
  {
  }

  lemma KeepThird()
    ensures KeepSlugChars(" 2024") == " 2024"
  {
  }

  lemma ExampleHyphenate()
    ensures HyphenateSpaceRuns("hello world 2024", false) == "hello-world-2024"
  {
    ExampleKeepOutput();
    HyphenateAppend3("hello", " world", " 2024");
    HyphenateFirst();
    HyphenateSecond();
    HyphenateThird();
    ExampleHyphenateOutput();
  }

  lemma ExampleHyphenateOutput()
    ensures "hello" + ("-world" + "-2024") == "hello-world-2024"
  {
  }

  lemma HyphenateAppend3(a: string, b: string, c: string)
    requires a != [] && !IsSpace(a[|a| - 1])
    requires b != [] && !IsSpace(b[|b| - 1])
    ensures HyphenateSpaceRuns(a + (b + c), false)
         == HyphenateSpaceRuns(a, false) + (HyphenateSpaceRuns(b, false) + HyphenateSpaceRuns(c, false))
  {
    HyphenateAppend(a, b + c, false);
    HyphenateAppend(b, c, false);
  }

  lemma HyphenateFirst()
    ensures HyphenateSpaceRuns("hello", false) == "hello"
  {
  }

  lemma HyphenateSecond()
    ensures HyphenateSpaceRuns(" world", false) == "-world"
  {
  }

  lemma HyphenateThird()
    ensures HyphenateSpaceRuns(" 2024", false) == "-2024"
  {
  }

  /** A leading space survives as a hyphen. */
  lemma SlugLeadingSpaceExample()
    ensures GenerateSlug(" Hello") == "-hello"
  {
    EdgeLower();
    EdgeKeep();
    EdgeHyphenate();
    EdgeCollapse();
    SlugOfSteps(" Hello", " hello", " hello", "-hello", "-hello");
  }

  lemma EdgeCollapse()
    ensures CollapseHyphenRuns("-hello", false) == "-hello"
  {
    CollapseNoDouble("-hello", false);
  }

  /** A title of punctuation only gives the empty slug. */
  lemma SlugPunctuationExample()
    ensures GenerateSlug("!!!") == ""
  {
    SlugEmptyWhenNothingKept("!!!");
  }

  lemma EdgeLower()
    ensures ToLower(" Hello") == " hello"
  {
  }

  lemma EdgeKeep()
    ensures KeepSlugChars(" hello") == " hello"
  {
  }

  lemma EdgeHyphenate()
    ensures HyphenateSpaceRuns(" hello", false) == "-hello"
  {
  }
}
