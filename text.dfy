/**
 * String helpers with Python's meaning: `str.strip()`, `str.split(sep)`,
 * `sep.join(parts)`, `str.title()`, `sub in s` and slicing `s[:n]`.
 * Whitespace and letter case are restricted to ASCII.
 */
module Text {

  /** Python's `str.isspace()` on ASCII: \t \n \v \f \r, \x1c-\x1f and the space. */
  predicate IsSpace(c: char) {
    9 <= c as int <= 13 || 28 <= c as int <= 32
  }

  predicate IsUpper(c: char) { 'A' <= c <= 'Z' }
  predicate IsLower(c: char) { 'a' <= c <= 'z' }
  predicate IsLetter(c: char) { IsUpper(c) || IsLower(c) }

  function ToUpper(c: char): (r: char)
    ensures IsLetter(c) ==> IsUpper(r)
    ensures !IsLower(c) ==> r == c
  {
    if IsLower(c) then (c as int - 32) as char else c
  }

  function ToLower(c: char): (r: char)
    ensures IsLetter(c) ==> IsLower(r)
    ensures !IsUpper(c) ==> r == c
  {
    if IsUpper(c) then (c as int + 32) as char else c
  }

  predicate NoSpace(s: string) {
    forall i :: 0 <= i < |s| ==> !IsSpace(s[i])
  }

  /** `s[:n]`: the first n characters, or all of s when it is shorter. */
  function Take<T>(s: seq<T>, n: nat): (r: seq<T>)
    ensures r <= s
    ensures |r| == if |s| <= n then |s| else n
  {
    if |s| <= n then s else s[..n]
  }

  /** The first index at or after i that is not whitespace (or |s|). */
  function SkipSpaces(s: string, i: nat): (k: nat)
    requires i <= |s|
    ensures i <= k <= |s|
    ensures forall n :: i <= n < k ==> IsSpace(s[n])
    ensures k == |s| || !IsSpace(s[k])
    decreases |s| - i
  {
    if i == |s| || !IsSpace(s[i]) then i else SkipSpaces(s, i + 1)
  }

  /** The smallest k with lo <= k <= j such that s[k..j] is all whitespace. */
  function SkipSpacesBack(s: string, lo: nat, j: nat): (k: nat)
    requires lo <= j <= |s|
    ensures lo <= k <= j
    ensures forall n :: k <= n < j ==> IsSpace(s[n])
    ensures k == lo || !IsSpace(s[k - 1])
  {
    if j == lo || !IsSpace(s[j - 1]) then j else SkipSpacesBack(s, lo, j - 1)
  }

  /** Python's `s.strip()`: drops the whitespace at both ends. */
  function Strip(s: string): (r: string)
    ensures |r| <= |s|
    ensures r == [] || (!IsSpace(r[0]) && !IsSpace(r[|r| - 1]))
    ensures NoSpace(s) ==> r == s
  {
    var i := SkipSpaces(s, 0);
    var j := SkipSpacesBack(s, i, |s|);
    assert NoSpace(s) ==> i == 0 && j == |s| by {
      if NoSpace(s) && 0 < |s| {
        assert !IsSpace(s[0]);
        assert !IsSpace(s[|s| - 1]);
      }
    }
    s[i..j]
  }

  /** What strip keeps is a middle part of s, and everything it drops is whitespace. */
  lemma StripSpec(s: string)
    ensures exists i, j :: 0 <= i <= j <= |s| && Strip(s) == s[i..j]
              && (forall k :: 0 <= k < i ==> IsSpace(s[k]))
              && (forall k :: j <= k < |s| ==> IsSpace(s[k]))
  {
    var i := SkipSpaces(s, 0);
    var j := SkipSpacesBack(s, i, |s|);
    assert Strip(s) == s[i..j];
  }

  /**
   * Python's `s.split(sep)` generalised to a set of separator characters: the pieces
   * between separators, always at least one.
   */
  function Split(s: string, seps: set<char>): (r: seq<string>)
    ensures |r| >= 1
    ensures forall k, c :: 0 <= k < |r| && c in seps ==> c !in r[k]
  {
    if s == [] then [""]
    else if s[0] in seps then [""] + Split(s[1..], seps)
    else
      var rest := Split(s[1..], seps);
      [[s[0]] + rest[0]] + rest[1..]
  }

  /** Python's `sep.join(parts)`. */
  function Join(parts: seq<string>, sep: string): string {
    if |parts| == 0 then ""
    else if |parts| == 1 then parts[0]
    else parts[0] + sep + Join(parts[1..], sep)
  }

  lemma {:induction false} JoinConsHead(x: string, parts: seq<string>, sep: string)
    requires |parts| >= 1
    ensures Join([x + parts[0]] + parts[1..], sep) == x + Join(parts, sep)
  {
    var p := [x + parts[0]] + parts[1..];
    assert p[1..] == parts[1..];
  }

  /** The separator and the pieces give back the string: `sep.join(s.split(sep)) == s`. */
  lemma {:induction false} JoinSplit(s: string, sep: char)
    ensures Join(Split(s, {sep}), [sep]) == s
  {
    if s == [] {
    } else if s[0] == sep {
      JoinSplit(s[1..], sep);
      var rest := Split(s[1..], {sep});
      assert ([""] + rest)[1..] == rest;
    } else {
      JoinSplit(s[1..], sep);
      JoinConsHead([s[0]], Split(s[1..], {sep}), [sep]);
    }
  }

  /** Without the separator there is exactly one piece, the string itself. */
  lemma {:induction false} SplitWithoutSep(s: string, seps: set<char>)
    requires forall k :: 0 <= k < |s| ==> s[k] !in seps
    ensures Split(s, seps) == [s]
  {
    if s != [] {
      SplitWithoutSep(s[1..], seps);
      assert [s[0]] + s[1..] == s;
    }
  }

  /** Splitting at a separator character splits the two sides independently. */
  lemma {:induction false} SplitConcat(a: string, c: char, b: string, seps: set<char>)
    requires c in seps
    ensures Split(a + [c] + b, seps) == Split(a, seps) + Split(b, seps)
  {
    var s := a + [c] + b;
    if a == [] {
      assert s[1..] == b;
    } else {
      assert s[1..] == a[1..] + [c] + b;
      SplitConcat(a[1..], c, b, seps);
    }
  }

  predicate EndsWith(s: string, suffix: string) {
    |suffix| <= |s| && s[|s| - |suffix|..] == suffix
  }

  /** A joined string ends with its last piece. */
  lemma {:induction false} JoinEndsWithLast(parts: seq<string>, sep: string)
    requires |parts| >= 1
    ensures EndsWith(Join(parts, sep), parts[|parts| - 1])
  {
    if |parts| > 1 {
      JoinEndsWithLast(parts[1..], sep);
      var rest := Join(parts[1..], sep);
      var last := parts[|parts| - 1];
      var j := parts[0] + sep + rest;
      assert j[|j| - |last|..] == rest[|rest| - |last|..];
    }
  }

  /** A joined string starts with its first piece. */
  lemma {:induction false} JoinStartsWithFirst(parts: seq<string>, sep: string)
    requires |parts| >= 1
    ensures parts[0] <= Join(parts, sep)
  {
  }

  /** Replacing the first piece by one of the same length changes only that prefix of the join. */
  lemma {:induction false} JoinReplaceFirst(parts: seq<string>, x: string, sep: string)
    requires |parts| >= 1
    requires |x| == |parts[0]|
    ensures |Join(parts[0 := x], sep)| == |Join(parts, sep)|
    ensures Join(parts[0 := x], sep)[..|x|] == x
    ensures Join(parts[0 := x], sep)[|x|..] == Join(parts, sep)[|x|..]
  {
    var q := parts[0 := x];
    if |parts| > 1 {
      assert q[1..] == parts[1..];
      assert Join(q, sep) == x + (sep + Join(parts[1..], sep));
      assert Join(parts, sep) == parts[0] + (sep + Join(parts[1..], sep));
    }
  }

  /** A joined string contains a character only if a piece or the separator does. */
  lemma {:induction false} JoinAvoids(parts: seq<string>, sep: string, c: char)
    requires c !in sep
    requires forall k :: 0 <= k < |parts| ==> c !in parts[k]
    ensures c !in Join(parts, sep)
  {
    if |parts| > 1 {
      JoinAvoids(parts[1..], sep, c);
    }
  }

  /** Python's `sub in s` for strings. */
  predicate Contains(s: string, sub: string) {
    exists i :: 0 <= i <= |s| && sub <= s[i..]
  }

  /**
   * Python's `str.title()` on ASCII: a letter that follows a letter becomes lower case,
   * every other letter upper case; other characters are unchanged.
   */
  function TitleCase(s: string): (r: string)
    ensures |r| == |s|
    ensures forall i :: 0 <= i < |s| ==> r[i] == TitleAt(s, i)
  {
    TitleFrom(s, false)
  }

  /** What `str.title()` makes of the character at index i. */
  function TitleAt(s: string, i: nat): char
    requires i < |s|
  {
    if !IsLetter(s[i]) then s[i]
    else if i > 0 && IsLetter(s[i - 1]) then ToLower(s[i])
    else ToUpper(s[i])
  }

  /** The character loop of `str.title()`, carrying whether the previous character was cased. */
  function TitleFrom(s: string, previousCased: bool): (r: string)
    ensures |r| == |s|
    ensures |s| > 0 ==> r[0] == (if !IsLetter(s[0]) then s[0] else if previousCased then ToLower(s[0]) else ToUpper(s[0]))
    ensures forall i :: 0 < i < |s| ==> r[i] == TitleAt(s, i)
  {
    if s == [] then []
    else
      var c := s[0];
      var head := if !IsLetter(c) then c else if previousCased then ToLower(c) else ToUpper(c);
      var tail := TitleFrom(s[1..], IsLetter(c));
      assert forall i :: 0 < i < |s| ==> TitleAt(s, i) == if i == 1 then tail[0] else TitleAt(s[1..], i - 1);
      [head] + tail
  }

  /** Title-casing is idempotent. */
  lemma TitleCaseIdempotent(s: string)
    ensures TitleCase(TitleCase(s)) == TitleCase(s)
  {
    var t := TitleCase(s);
    forall i | 0 <= i < |s|
      ensures TitleCase(t)[i] == t[i]
    {
      assert IsLetter(t[i]) <==> IsLetter(s[i]);
      if i > 0 {
        assert IsLetter(t[i - 1]) <==> IsLetter(s[i - 1]);
      }
    }
  }
}
