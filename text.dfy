/** Text primitives the JavaScript code relies on, restricted to ASCII:
    the `\s` class, `toLowerCase`, `trim`, `includes`, `split` and `join`. */
module Text {

  datatype Option<+T> = None | Some(value: T) {
    function GetOr(default: T): T {
      match this
      case Some(v) => v
      case None => default
    }
  }

  /** JavaScript's `\s` on ASCII: space, tab, line feed, vertical tab, form feed, carriage return. */
  predicate IsSpace(c: char) {
    c == ' ' || '\t' <= c <= '\r'
  }

  predicate NoSpace(s: string) {
    forall i :: 0 <= i < |s| ==> !IsSpace(s[i])
  }

  predicate IsUpper(c: char) {
    'A' <= c <= 'Z'
  }

  predicate IsLowerLetter(c: char) {
    'a' <= c <= 'z'
  }

  predicate IsDigit(c: char) {
    '0' <= c <= '9'
  }

  /** The regular-expression class `\w`: `[A-Za-z0-9_]`. */
  predicate IsWordChar(c: char) {
    IsUpper(c) || IsLowerLetter(c) || IsDigit(c) || c == '_'
  }

  /** `toLowerCase` on one ASCII character; every other character is left alone. */
  function LowerChar(c: char): (d: char)
    ensures !IsUpper(d)
    ensures IsSpace(d) <==> IsSpace(c)
    ensures IsWordChar(d) <==> IsWordChar(c)
    ensures !IsUpper(c) ==> d == c
  {
    if IsUpper(c) then (c as int + 32) as char else c
  }

  function ToLower(s: string): (r: string)
    ensures |r| == |s|
    ensures forall i :: 0 <= i < |s| ==> r[i] == LowerChar(s[i])
  {
    seq(|s|, i requires 0 <= i < |s| => LowerChar(s[i]))
  }

  predicate NoUpper(s: string) {
    forall i :: 0 <= i < |s| ==> !IsUpper(s[i])
  }

  lemma ToLowerFacts(s: string)
    ensures NoUpper(ToLower(s))
    ensures NoUpper(s) ==> ToLower(s) == s
    ensures ToLower(ToLower(s)) == ToLower(s)
    ensures NoSpace(s) <==> NoSpace(ToLower(s))
  {
    var r := ToLower(s);
    if !NoSpace(s) {
      var i :| 0 <= i < |s| && IsSpace(s[i]);
      assert IsSpace(r[i]);
    }
  }

  /** Lower-casing works character by character, so it commutes with taking a prefix or a
      suffix. */
  lemma ToLowerPrefix(s: string, i: int)
    requires 0 <= i <= |s|
    ensures ToLower(s)[..i] == ToLower(s[..i])
  {
  }

  lemma ToLowerSuffix(s: string, i: int)
    requires 0 <= i <= |s|
    ensures ToLower(s)[i..] == ToLower(s[i..])
  {
  }

  /** No whitespace before `b` and none from `b` on: none at all. */
  lemma NoSpaceJoin(s: string, b: int)
    requires 0 <= b <= |s| && NoSpace(s[..b]) && NoSpace(s[b..])
    ensures NoSpace(s)
  {
    forall i | 0 <= i < |s| ensures !IsSpace(s[i]) {
      if i < b {
        assert s[i] == s[..b][i];
      } else {
        assert s[i] == s[b..][i - b];
      }
    }
  }

  function TrimStart(s: string): (r: string)
    ensures |r| <= |s| && r == s[|s| - |r|..]
    ensures r == [] || !IsSpace(r[0])
  {
    if |s| > 0 && IsSpace(s[0]) then TrimStart(s[1..]) else s
  }

  function TrimEnd(s: string): (r: string)
    ensures |r| <= |s| && r == s[..|r|]
    ensures r == [] || !IsSpace(r[|r| - 1])
  {
    if |s| > 0 && IsSpace(s[|s| - 1]) then TrimEnd(s[..|s| - 1]) else s
  }

  /** `String.prototype.trim`: drops leading and trailing whitespace. */
  function Trim(s: string): (r: string)
    ensures |r| <= |s|
    ensures r == [] || (!IsSpace(r[0]) && !IsSpace(r[|r| - 1]))
  {
    TrimStart(TrimEnd(s))
  }

  lemma TrimNoSpace(s: string)
    requires NoSpace(s)
    ensures Trim(s) == s
  {
  }

  /** Trimming only removes characters: whatever remains comes from the input. */
  lemma TrimFromInput(s: string)
    ensures forall i :: 0 <= i < |Trim(s)| ==> Trim(s)[i] in s
  {
    var e := TrimEnd(s);
    var r := TrimStart(e);
    forall i | 0 <= i < |r| ensures r[i] in s {
      assert r[i] == e[|e| - |r| + i];
      assert e[|e| - |r| + i] == s[|e| - |r| + i];
    }
  }

  /** Text with no whitespace at either end is its own trim; in particular trimming twice
      is trimming once. */
  lemma TrimOfTrimmed(s: string)
    requires s == [] || (!IsSpace(s[0]) && !IsSpace(s[|s| - 1]))
    ensures Trim(s) == s
  {
  }

  lemma TrimIdempotent(s: string)
    ensures Trim(Trim(s)) == Trim(s)
  {
    TrimOfTrimmed(Trim(s));
  }

  lemma {:induction false} TrimStartOfNoSpace(s: string)
    requires s != [] && !IsSpace(s[0])
    ensures TrimStart(s) == s
  {
  }

  /** `a.includes(b)`: `b` occurs in `a` as a contiguous piece. */
  predicate Contains(a: string, b: string) {
    exists i | 0 <= i <= |a| - |b| :: OccursAt(a, b, i)
  }

  predicate OccursAt(a: string, b: string, i: int) {
    0 <= i <= |a| - |b| && a[i..i + |b|] == b
  }

  /** Case-insensitive containment: both sides lower-cased, as `a.toLowerCase().includes(b.toLowerCase())`. */
  predicate ContainsInsensitive(a: string, b: string) {
    Contains(ToLower(a), ToLower(b))
  }

  lemma ContainsEmpty(a: string)
    ensures Contains(a, "")
  {
    assert OccursAt(a, "", 0);
  }

  lemma ContainsSelf(a: string)
    ensures Contains(a, a)
  {
    assert OccursAt(a, a, 0);
  }

  lemma NothingNonEmptyInEmpty(b: string)
    requires b != ""
    ensures !Contains("", b)
  {
  }

  function CountChar(s: string, c: char): (n: nat)
    ensures n <= |s|
  {
    if s == [] then 0 else (if s[0] == c then 1 else 0) + CountChar(s[1..], c)
  }

  /** `s.split(sep)` for a one-character separator: the pieces between separators, in order,
      an empty piece wherever two separators touch or one sits at an end. */
  function Split(s: string, sep: char): (parts: seq<string>)
    ensures |parts| == CountChar(s, sep) + 1
    ensures forall k :: 0 <= k < |parts| ==> sep !in parts[k]
  {
    if s == [] then [""]
    else
      var rest := Split(s[1..], sep);
      if s[0] == sep then [""] + rest
      else [[s[0]] + rest[0]] + rest[1..]
  }

  /** `parts.join(sep)`. */
  function Join(parts: seq<string>, sep: string): string {
    if parts == [] then ""
    else if |parts| == 1 then parts[0]
    else parts[0] + sep + Join(parts[1..], sep)
  }

  /** Joining the pieces of a split with the same separator gives back the text. */
  lemma {:induction false} JoinSplit(s: string, sep: char)
    ensures Join(Split(s, sep), [sep]) == s
  {
    if s != [] {
      var rest := Split(s[1..], sep);
      JoinSplit(s[1..], sep);
      if s[0] == sep {
        assert Split(s, sep) == [""] + rest;
        assert Join([""] + rest, [sep]) == "" + [sep] + Join(rest, [sep]);
      } else {
        assert Split(s, sep) == [[s[0]] + rest[0]] + rest[1..];
        if |rest| == 1 {
          assert Join(Split(s, sep), [sep]) == [s[0]] + rest[0];
        } else {
          assert rest == [rest[0]] + rest[1..];
          assert Join(rest, [sep]) == rest[0] + [sep] + Join(rest[1..], [sep]);
          assert Join(Split(s, sep), [sep]) == [s[0]] + rest[0] + [sep] + Join(rest[1..], [sep]);
        }
      }
    }
  }

  /** Splitting a join recovers the pieces, provided no piece holds the separator. */
  lemma {:induction false} SplitJoin(parts: seq<string>, sep: char)
    requires |parts| > 0
    requires forall k :: 0 <= k < |parts| ==> sep !in parts[k]
    ensures Split(Join(parts, [sep]), sep) == parts
  {
    if |parts| == 1 {
      SplitNoSep(parts[0], sep);
    } else {
      SplitJoin(parts[1..], sep);
      SplitAppend(parts[0], sep, Join(parts[1..], [sep]));
      assert Join(parts, [sep]) == parts[0] + [sep] + Join(parts[1..], [sep]);
      assert parts == [parts[0]] + parts[1..];
    }
  }

  lemma {:induction false} SplitNoSep(s: string, sep: char)
    requires sep !in s
    ensures Split(s, sep) == [s]
  {
    if s != [] {
      SplitNoSep(s[1..], sep);
      assert [s[0]] + s[1..] == s;
    }
  }

  /** Splitting `a + sep + b` with `a` free of separators gives `a` followed by the pieces of `b`. */
  lemma {:induction false} SplitAppend(a: string, sep: char, b: string)
    requires sep !in a
    ensures Split(a + [sep] + b, sep) == [a] + Split(b, sep)
  {
    if a == [] {
      assert a + [sep] + b == [sep] + b;
      assert ([sep] + b)[1..] == b;
    } else {
      SplitAppend(a[1..], sep, b);
      assert (a + [sep] + b)[1..] == a[1..] + [sep] + b;
      assert [a[0]] + a[1..] == a;
    }
  }
}
