/** The excerpt derived from a post's content, computed the same way in the create route
    (src/app/api/posts/route.js) and in the model's save hook (src/lib/models/post.model.js):
    markup is removed with `content.replace(/<[^>]*>/g, "")`, the first 150 characters are
    kept, and "..." is appended when anything was cut. */
module Excerpt {
  import opened Text

  /** Number of characters the excerpt keeps before the ellipsis. */
  const ExcerptLength := 150

  const Ellipsis := "..."

  /** The position of the first `c` in `s`. */
  function FirstIndex(s: string, c: char): (n: nat)
    requires c in s
    ensures n < |s| && s[n] == c
    ensures c !in s[..n]
  {
    if s[0] == c then 0
    else
      assert c in s[1..] by {
        var k :| 0 <= k < |s| && s[k] == c;
        assert s[1..][k - 1] == c;
      }
      var n := 1 + FirstIndex(s[1..], c);
      assert s[..n] == [s[0]] + s[1..][..n - 1];
      n
  }

  /** No `<` is followed, anywhere later, by a `>`: nothing the tag pattern would remove. */
  predicate NoClosedTag(s: string) {
    forall i, j :: 0 <= i < j < |s| ==> !(s[i] == '<' && s[j] == '>')
  }

  /** `s.replace(/<[^>]*>/g, "")`: scanning from the left, a `<` that has a `>` after it is
      removed together with everything up to and including the first such `>`; any other
      character is kept. */
  function StripTags(s: string): (r: string)
    ensures |r| <= |s|
    ensures forall i :: 0 <= i < |r| ==> r[i] in s
    decreases |s|
  {
    if s == [] then []
    else if s[0] == '<' && '>' in s[1..] then
      StripTags(s[FirstIndex(s[1..], '>') + 2..])
    else
      [s[0]] + StripTags(s[1..])
  }

  /** No tag survives: after stripping, no `<` is followed (anywhere later) by a `>`. */
  lemma {:induction false} StripLeavesNoTag(s: string)
    ensures NoClosedTag(StripTags(s))
    decreases |s|
  {
    if s == [] {
    } else if s[0] == '<' && '>' in s[1..] {
      StripLeavesNoTag(s[FirstIndex(s[1..], '>') + 2..]);
    } else {
      StripLeavesNoTag(s[1..]);
      NoTagCons(s[0], s[1..], StripTags(s[1..]));
    }
  }

  /** A character kept in front of tag-free text from `tail` closes no tag, unless it is a
      `<` and `tail` holds a `>`. */
  lemma NoTagCons(c: char, tail: string, rest: string)
    requires NoClosedTag(rest)
    requires forall i :: 0 <= i < |rest| ==> rest[i] in tail
    requires !(c == '<' && '>' in tail)
    ensures NoClosedTag([c] + rest)
  {
    var r := [c] + rest;
    forall i, j | 0 <= i < j < |r| ensures !(r[i] == '<' && r[j] == '>') {
      assert r[j] == rest[j - 1];
      if i == 0 {
        assert rest[j - 1] in tail;
      } else {
        assert r[i] == rest[i - 1];
      }
    }
  }

  /** Text with no closed tag is left as it is. */
  lemma {:induction false} StripWithoutTags(s: string)
    requires NoClosedTag(s)
    ensures StripTags(s) == s
  {
    if s != [] {
      assert !(s[0] == '<' && '>' in s[1..]) by {
        if s[0] == '<' {
          forall k | 0 <= k < |s[1..]| ensures s[1..][k] != '>' {
            assert s[k + 1] == s[1..][k];
          }
        }
      }
      assert NoClosedTag(s[1..]) by {
        forall i, j | 0 <= i < j < |s[1..]| ensures !(s[1..][i] == '<' && s[1..][j] == '>') {
          assert s[1..][i] == s[i + 1] && s[1..][j] == s[j + 1];
        }
      }
      StripWithoutTags(s[1..]);
      assert [s[0]] + s[1..] == s;
    }
  }

  /** Stripping twice removes nothing more than stripping once. */
  lemma StripIdempotent(s: string)
    ensures StripTags(StripTags(s)) == StripTags(s)
  {
    StripLeavesNoTag(s);
    StripWithoutTags(StripTags(s));
  }

  /** Plain text (no `<` at all) passes unchanged. */
  lemma StripPlainText(s: string)
    requires '<' !in s
    ensures StripTags(s) == s
  {
    StripWithoutTags(s);
  }

  /** `plainText.substring(0, 150) + (plainText.length > 150 ? "..." : "")`. */
  function ExcerptOf(content: string): (r: string)
    ensures |r| <= ExcerptLength + |Ellipsis|
  {
    var plain := StripTags(content);
    if |plain| > ExcerptLength then plain[..ExcerptLength] + Ellipsis else plain
  }

  /** The excerpt is the stripped text when that fits, and otherwise its first 150 characters
      marked as cut: it is never longer than 153 characters, begins with the stripped text's
      start, and ends in "..." exactly when the text was cut. */
  lemma ExcerptShape(content: string)
    ensures var plain := StripTags(content);
            var r := ExcerptOf(content);
            && (|plain| <= ExcerptLength ==> r == plain)
            && (|plain| > ExcerptLength ==>
                  |r| == ExcerptLength + |Ellipsis| && r[..ExcerptLength] == plain[..ExcerptLength]
                  && r[ExcerptLength..] == Ellipsis)
  {
  }

  /** No tag is left in an excerpt: the part taken from the stripped text has none, and the
      ellipsis holds neither `<` nor `>`. */
  lemma ExcerptHasNoTag(content: string)
    ensures NoClosedTag(ExcerptOf(content))
  {
    var plain := StripTags(content);
    StripLeavesNoTag(content);
    var r := ExcerptOf(content);
    forall i, j | 0 <= i < j < |r| ensures !(r[i] == '<' && r[j] == '>') {
      if |plain| > ExcerptLength && j >= ExcerptLength {
        assert r[j] == Ellipsis[j - ExcerptLength];
      } else {
        assert r[i] == plain[i] && r[j] == plain[j];
      }
    }
  }

  /** A paragraph's markup is removed. */
  lemma ExcerptExample()
    ensures StripTags("<p>Hi</p>") == "Hi"
  {
    StripTagsStep("<p>Hi</p>", 2);
    StripTagsExampleRest();
  }

  lemma StripTagsExampleRest()
    ensures StripTags("Hi</p>") == "Hi"
  {
    StripTagsStep("</p>", 3);
  }

  /** A `<` with no `>` after it is kept as text. */
  lemma UnclosedExample()
    ensures StripTags("a<b") == "a<b"
  {
    StripPlainTextAfter("a<b");
  }

  lemma StripPlainTextAfter(s: string)
    requires '>' !in s
    ensures StripTags(s) == s
  {
    assert NoClosedTag(s) by {
      forall i, j | 0 <= i < j < |s| ensures !(s[i] == '<' && s[j] == '>') {
        assert s[j] in s;
      }
    }
    StripWithoutTags(s);
  }

  /** One removal step: a leading `<` whose first `>` is at `k` goes together with it. */
  lemma StripTagsStep(s: string, k: nat)
    requires k < |s| && s[0] == '<' && s[k] == '>'
    requires forall m :: 1 <= m < k ==> s[m] != '>'
    ensures StripTags(s) == StripTags(s[k + 1..])
  {
    assert s[1..][k - 1] == '>';
    var n := FirstIndex(s[1..], '>');
    assert s[n + 1] == '>';
    assert s[1..][..k - 1] == s[1..k];
    assert '>' !in s[1..][..k - 1];
  }
}
