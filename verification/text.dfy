/** The string helpers the model needs from Ruby and ActiveSupport: blank
    tests, `String#split` with a string separator, `Array#join`, and the
    `underscore` inflection. Strings are sequences of characters; only ASCII
    letters have a case. */
module Text {
  import opened Wrappers

  /** The characters Ruby treats as white space: space, tab, newline,
      vertical tab, form feed and carriage return. */
  predicate IsSpace(c: char) {
    c == ' ' || '\t' <= c <= '\r'
  }

  /** `String#blank?`: empty or white space only. */
  predicate IsBlank(s: string) {
    forall i :: 0 <= i < |s| ==> IsSpace(s[i])
  }

  predicate IsUpper(c: char) { 'A' <= c <= 'Z' }

  predicate IsLower(c: char) { 'a' <= c <= 'z' }

  predicate IsDigit(c: char) { '0' <= c <= '9' }

  function Downcase(c: char): (d: char)
    ensures !IsUpper(d)
    ensures !IsUpper(c) ==> d == c
  {
    if IsUpper(c) then (c as int + 32) as char else c
  }

  // ---------------------------------------------------------------------------
  // Splitting and joining
  // ---------------------------------------------------------------------------

  /** `sep` occurs in `s` starting at index `i`. */
  predicate OccursAt(s: string, sep: string, i: nat) {
    i + |sep| <= |s| && s[i..i + |sep|] == sep
  }

  /** `sep` occurs nowhere in `s`. */
  predicate Free(s: string, sep: string) {
    forall j: nat :: j <= |s| ==> !OccursAt(s, sep, j)
  }

  /** The first index at or after `from` where `sep` occurs in `s`. */
  function FindFrom(s: string, sep: string, from: nat): (r: Option<nat>)
    requires from <= |s|
    ensures r.Some? ==> from <= r.value && OccursAt(s, sep, r.value)
    ensures r.Some? ==> forall j: nat :: from <= j < r.value ==> !OccursAt(s, sep, j)
    ensures r.None? ==> forall j: nat :: from <= j ==> !OccursAt(s, sep, j)
    decreases |s| - from
  {
    if from + |sep| > |s| then None
    else if s[from..from + |sep|] == sep then Some(from)
    else FindFrom(s, sep, from + 1)
  }

  /** All fields of `s` between occurrences of `sep`, scanning left to right,
      empty fields included. */
  function SplitOn(s: string, sep: string): (parts: seq<string>)
    requires |sep| > 0
    ensures |parts| > 0
    ensures forall k :: 0 <= k < |parts| ==> Free(parts[k], sep)
    decreases |s|
  {
    match FindFrom(s, sep, 0)
    case None => [s]
    case Some(i) =>
      PrefixBeforeFirstIsFree(s, sep, i);
      [s[..i]] + SplitOn(s[i + |sep|..], sep)
  }

  /** The text before the first occurrence of a separator contains none. */
  lemma PrefixBeforeFirstIsFree(s: string, sep: string, i: nat)
    requires i <= |s| && |sep| > 0
    requires forall j: nat :: j < i ==> !OccursAt(s, sep, j)
    ensures Free(s[..i], sep)
  {
    forall j: nat | j <= i
      ensures !OccursAt(s[..i], sep, j)
    {
      if j + |sep| <= i {
        assert s[..i][j..j + |sep|] == s[j..j + |sep|];
        assert !OccursAt(s, sep, j);
      }
    }
  }

  /** A string without the separator's first character is one field. */
  lemma SplitOnWithoutSeparator(s: string, sep: string)
    requires |sep| > 0 && sep[0] !in s
    ensures SplitOn(s, sep) == [s]
  {
    match FindFrom(s, sep, 0)
    case None =>
    case Some(i) =>
      assert false;
  }

  /** One separator between two fields free of its first character splits
      into exactly those two fields. */
  lemma SplitOnOnce(x: string, sep: string, y: string)
    requires |sep| > 0 && sep[0] !in x && sep[0] !in y
    ensures SplitOn(x + sep + y, sep) == [x, y]
  {
    var s := x + sep + y;
    assert OccursAt(s, sep, |x|) by {
      assert s[|x|..|x| + |sep|] == sep;
    }
    match FindFrom(s, sep, 0)
    case None =>
      assert false;
    case Some(i) =>
      if i < |x| {
        assert false;
      }
      assert s[..i] == x && s[i + |sep|..] == y;
      SplitOnWithoutSeparator(y, sep);
  }

  /** Drops the empty strings at the end of a list of fields. */
  function DropTrailingEmpty(parts: seq<string>): (r: seq<string>)
    ensures |r| <= |parts| && r == parts[..|r|]
    ensures |r| > 0 ==> r[|r| - 1] != ""
    ensures forall k :: |r| <= k < |parts| ==> parts[k] == ""
  {
    if |parts| > 0 && parts[|parts| - 1] == "" then
      DropTrailingEmpty(parts[..|parts| - 1])
    else
      parts
  }

  /** Ruby's `String#split` with a string separator and no limit: the fields
      between separators, with trailing empty fields removed. */
  function RubySplit(s: string, sep: string): (parts: seq<string>)
    requires |sep| > 0
  {
    DropTrailingEmpty(SplitOn(s, sep))
  }

  /** `Array#join(sep)`. */
  function Join(parts: seq<string>, sep: string): string {
    if |parts| == 0 then ""
    else if |parts| == 1 then parts[0]
    else parts[0] + sep + Join(parts[1..], sep)
  }

  /** Joining a field in front of a non-empty list puts one separator
      between it and the join of the list. */
  lemma JoinCons(p: string, tail: seq<string>, sep: string)
    requires |tail| > 0
    ensures Join([p] + tail, sep) == p + sep + Join(tail, sep)
  {
    assert ([p] + tail)[1..] == tail;
  }

  /** Joining two fields puts one separator between them. */
  lemma JoinPair(p: string, q: string, sep: string)
    ensures Join([p, q], sep) == p + sep + q
  {
    JoinCons(p, [q], sep);
    assert [p] + [q] == [p, q];
  }

  /** Joining the fields of a split with the same separator gives back the
      original string. */
  lemma {:induction false} JoinSplit(s: string, sep: string)
    requires |sep| > 0
    ensures Join(SplitOn(s, sep), sep) == s
    decreases |s|
  {
    match FindFrom(s, sep, 0)
    case None =>
    case Some(i) =>
      var rest := s[i + |sep|..];
      var tail := SplitOn(rest, sep);
      assert SplitOn(s, sep) == [s[..i]] + tail;
      JoinSplit(rest, sep);
      JoinCons(s[..i], tail, sep);
      assert s[i..i + |sep|] == sep;
      assert s == s[..i] + s[i..i + |sep|] + rest;
  }

  /** With a one-character separator, splitting a join of separator-free
      fields gives back exactly those fields. */
  lemma {:induction false} SplitJoin(parts: seq<string>, sep: string)
    requires |sep| == 1 && |parts| > 0
    requires forall k :: 0 <= k < |parts| ==> sep[0] !in parts[k]
    ensures SplitOn(Join(parts, sep), sep) == parts
    decreases |parts|
  {
    var s := Join(parts, sep);
    var p := parts[0];
    assert Free(p, sep) by {
      forall j: nat | j <= |p|
        ensures !OccursAt(p, sep, j)
      {
        if j < |p| {
          assert p[j] in p;
          assert p[j..j + 1][0] == p[j];
        }
      }
    }
    if |parts| == 1 {
      assert s == p;
      assert FindFrom(s, sep, 0).None?;
    } else {
      var rest := Join(parts[1..], sep);
      assert s == p + sep + rest;
      assert s[..|p|] == p;
      assert OccursAt(s, sep, |p|) by {
        assert s[|p|..|p| + 1] == sep;
      }
      forall j: nat | j < |p|
        ensures !OccursAt(s, sep, j)
      {
        assert s[j] == p[j] && p[j] != sep[0];
        assert s[j..j + 1][0] == s[j];
      }
      var f := FindFrom(s, sep, 0);
      assert f == Some(|p|);
      assert s[|p| + 1..] == rest;
      SplitJoin(parts[1..], sep);
      assert SplitOn(s, sep) == [p] + SplitOn(rest, sep);
    }
  }

  // ---------------------------------------------------------------------------
  // ActiveSupport's underscore
  // ---------------------------------------------------------------------------

  /** Whether an upper-case letter `c`, preceded by `prev` and followed by the
      rest of the word `next`, starts a new word. The first disjunct is the
      `([a-z\d])([A-Z])` rule; the second is the `([A-Z\d]+)([A-Z][a-z])`
      rule (its digit case is covered by the first). */
  predicate StartsWord(prev: char, c: char, next: string) {
    IsUpper(c) &&
    (IsLower(prev) || IsDigit(prev) || (IsUpper(prev) && |next| > 0 && IsLower(next[0])))
  }

  /** `underscore` of `s`, given the character that precedes it. */
  function UnderscoreAfter(prev: char, s: string): string
    decreases |s|
  {
    if |s| == 0 then ""
    else if |s| >= 2 && s[0] == ':' && s[1] == ':' then
      "/" + UnderscoreAfter('/', s[2..])
    else
      var c := s[0];
      (if StartsWord(prev, c, s[1..]) then "_" else "")
        + [Downcase(if c == '-' then '_' else c)]
        + UnderscoreAfter(c, s[1..])
  }

  /** ActiveSupport's `String#underscore` without acronym inflections:
      "::" becomes "/", a word boundary inside a camel-cased name gets "_",
      "-" becomes "_", and letters are down-cased. */
  function Underscore(s: string): string {
    UnderscoreAfter('/', s)
  }

  /** An underscored name has no upper-case letter and no '-'. */
  lemma {:induction false} UnderscoreIsLowerCase(prev: char, s: string)
    ensures forall i :: 0 <= i < |UnderscoreAfter(prev, s)| ==>
              !IsUpper(UnderscoreAfter(prev, s)[i]) && UnderscoreAfter(prev, s)[i] != '-'
    decreases |s|
  {
    if |s| == 0 {
    } else if |s| >= 2 && s[0] == ':' && s[1] == ':' {
      UnderscoreIsLowerCase('/', s[2..]);
    } else {
      UnderscoreIsLowerCase(s[0], s[1..]);
    }
  }

  /** A character that is neither a letter nor '_' nor '/' and is absent
      from `s` is absent from its underscored form. */
  lemma {:induction false} UnderscoreKeepsAbsent(prev: char, s: string, c: char)
    requires c !in s && !IsUpper(c) && !IsLower(c) && c != '_' && c != '/'
    ensures c !in UnderscoreAfter(prev, s)
    decreases |s|
  {
    if |s| == 0 {
    } else if |s| >= 2 && s[0] == ':' && s[1] == ':' {
      UnderscoreKeepsAbsent('/', s[2..], c);
    } else {
      UnderscoreKeepsAbsent(s[0], s[1..], c);
    }
  }

  /** A word already in lower case, with no '-' and no "::", is its own
      underscored form. */
  lemma {:induction false} UnderscoreFixesLowerWords(prev: char, s: string)
    requires forall i :: 0 <= i < |s| ==> !IsUpper(s[i]) && s[i] != '-'
    requires forall i :: 0 <= i < |s| - 1 ==> !(s[i] == ':' && s[i + 1] == ':')
    ensures UnderscoreAfter(prev, s) == s
    decreases |s|
  {
    if |s| > 0 {
      assert !(|s| >= 2 && s[0] == ':' && s[1] == ':');
      UnderscoreFixesLowerWords(s[0], s[1..]);
      assert s == [s[0]] + s[1..];
    }
  }

  /** Letters a..z only. */
  predicate IsLowerWord(s: string) {
    forall i :: 0 <= i < |s| ==> IsLower(s[i])
  }

  /** A lower-case word passes through unchanged, and what follows it is
      underscored as coming after its last letter. */
  lemma {:induction false} UnderscoreLowerPrefix(prev: char, a: string, rest: string)
    requires |a| > 0 && IsLowerWord(a)
    ensures UnderscoreAfter(prev, a + rest) == a + UnderscoreAfter(a[|a| - 1], rest)
    decreases |a|
  {
    var s := a + rest;
    assert s[0] == a[0] && s[1..] == a[1..] + rest;
    if |a| > 1 {
      UnderscoreLowerPrefix(a[0], a[1..], rest);
      assert a == [a[0]] + a[1..];
    }
  }

  /** One step of `underscore` on a character that does not start "::". */
  lemma UnderscoreStep(prev: char, c: char, rest: string)
    requires c != ':'
    ensures UnderscoreAfter(prev, [c] + rest) ==
              (if StartsWord(prev, c, rest) then "_" else "") + [Downcase(if c == '-' then '_' else c)]
                + UnderscoreAfter(c, rest)
  {
    assert ([c] + rest)[0] == c && ([c] + rest)[1..] == rest;
  }

  /** A lower-case word is its own underscored form. */
  lemma UnderscoreFixesLowerWord(prev: char, a: string)
    requires IsLowerWord(a)
    ensures UnderscoreAfter(prev, a) == a
  {
    forall i | 0 <= i < |a|
      ensures !IsUpper(a[i]) && a[i] != '-'
    {
      assert IsLower(a[i]);
    }
    forall i | 0 <= i < |a| - 1
      ensures !(a[i] == ':' && a[i + 1] == ':')
    {
      assert IsLower(a[i]);
    }
    UnderscoreFixesLowerWords(prev, a);
  }

  /** A leading upper-case letter is down-cased and starts no word. */
  lemma UnderscoreLeadingUpper(c: char, rest: string)
    requires IsUpper(c)
    ensures Underscore([c] + rest) == [Downcase(c)] + UnderscoreAfter(c, rest)
  {
    UnderscoreStep('/', c, rest);
  }

  /** A capitalised word is down-cased. */
  lemma UnderscoreCapitalised(c: char, a: string)
    requires IsUpper(c) && IsLowerWord(a)
    ensures Underscore([c] + a) == [Downcase(c)] + a
  {
    UnderscoreLeadingUpper(c, a);
    UnderscoreFixesLowerWord(c, a);
  }

  /** An upper-case letter after a lower-case one starts a new word. */
  lemma UnderscoreWordBoundary(prev: char, d: char, b: string)
    requires IsLower(prev) && IsUpper(d) && IsLowerWord(b)
    ensures UnderscoreAfter(prev, [d] + b) == "_" + [Downcase(d)] + b
  {
    UnderscoreStep(prev, d, b);
    UnderscoreFixesLowerWord(d, b);
  }

  /** A lower-case word followed by a capitalised one: the boundary gets '_'. */
  lemma UnderscoreLowerThenCapital(prev: char, a: string, d: char, b: string)
    requires IsUpper(d) && |a| > 0 && IsLowerWord(a) && IsLowerWord(b)
    ensures UnderscoreAfter(prev, a + ([d] + b)) == a + ("_" + [Downcase(d)] + b)
  {
    UnderscoreWordBoundary(a[|a| - 1], d, b);
    UnderscoreLowerPrefix(prev, a, [d] + b);
  }

  /** Two capitalised words run together are split by '_' and down-cased:
      "BlogPost" becomes "blog_post". */
  lemma UnderscoreCamelPair(c: char, a: string, d: char, b: string)
    requires IsUpper(c) && IsUpper(d) && |a| > 0 && IsLowerWord(a) && IsLowerWord(b)
    ensures Underscore([c] + a + [d] + b) == [Downcase(c)] + a + "_" + [Downcase(d)] + b
  {
    Regroup([c], a, [d], b);
    Regroup([Downcase(c)], a, "_", [Downcase(d)] + b);
    UnderscoreLeadingUpper(c, a + ([d] + b));
    UnderscoreLowerThenCapital(c, a, d, b);
  }

  lemma Regroup<T>(w: seq<T>, x: seq<T>, y: seq<T>, z: seq<T>)
    ensures w + x + y + z == w + (x + (y + z))
  {
  }
}
