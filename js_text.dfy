/**
 * The JavaScript string built-ins the frontend and the build script rely on:
 * `trim`, `split(/\s+/)`, `split(c)` / `join(c)` with a one-character separator,
 * `replace(/\./g, "")` and `toLowerCase`. Strings are sequences of code points.
 */
module JsText {

  /** The characters JavaScript's `trim` removes and its regular-expression class `\s` matches
      (WhiteSpace and LineTerminator of ECMAScript). */
  predicate IsJsSpace(c: char) {
    || c == ' ' || c == '\t' || c == '\n' || c == '\U{000B}' || c == '\U{000C}' || c == '\r'
    || c == '\U{00A0}' || c == '\U{1680}' || ('\U{2000}' <= c <= '\U{200A}')
    || c == '\U{2028}' || c == '\U{2029}' || c == '\U{202F}' || c == '\U{205F}'
    || c == '\U{3000}' || c == '\U{FEFF}'
  }

  predicate HasSpace(s: string) {
    exists i :: 0 <= i < |s| && IsJsSpace(s[i])
  }

  // ---------- trim ----------

  function TrimStart(s: string): (r: string)
    ensures |r| <= |s| && r == s[|s| - |r|..]
    ensures forall i :: 0 <= i < |s| - |r| ==> IsJsSpace(s[i])
    ensures r == [] || !IsJsSpace(r[0])
  {
    if s != [] && IsJsSpace(s[0]) then TrimStart(s[1..]) else s
  }

  function TrimEnd(s: string): (r: string)
    ensures |r| <= |s| && r == s[..|r|]
    ensures forall i :: |r| <= i < |s| ==> IsJsSpace(s[i])
    ensures r == [] || !IsJsSpace(r[|r| - 1])
  {
    if s != [] && IsJsSpace(s[|s| - 1]) then TrimEnd(s[..|s| - 1]) else s
  }

  /** `s.trim()`: `s` without its leading and trailing white space. */
  function Trim(s: string): (r: string)
    ensures r == [] || (!IsJsSpace(r[0]) && !IsJsSpace(r[|r| - 1]))
  {
    var t := TrimStart(s);
    var r := TrimEnd(t);
    assert r != [] ==> r[0] == t[0];
    r
  }

  /** A prefix of a suffix of `s` is an infix of `s`. */
  lemma PrefixOfSuffix(s: string, t: string, r: string)
    requires |t| <= |s| && t == s[|s| - |t|..]
    requires |r| <= |t| && r == t[..|r|]
    ensures r == s[|s| - |t|..|s| - |t| + |r|]
  {
  }

  /** What trimming keeps: the infix of `s` that starts after the leading white space. */
  lemma TrimIsInfix(s: string)
    ensures var a := |s| - |TrimStart(s)|;
      a + |Trim(s)| <= |s| && Trim(s) == s[a..a + |Trim(s)|]
  {
    var t := TrimStart(s);
    assert Trim(s) == TrimEnd(t);
    PrefixOfSuffix(s, t, TrimEnd(t));
  }

  /** What trimming drops: everything around the kept infix is white space. */
  lemma TrimDropsSpace(s: string)
    ensures var a := |s| - |TrimStart(s)|;
      && (forall i :: 0 <= i < a ==> IsJsSpace(s[i]))
      && (forall i :: a + |Trim(s)| <= i < |s| ==> IsJsSpace(s[i]))
  {
    var t := TrimStart(s);
    var r := TrimEnd(t);
    var a := |s| - |t|;
    assert Trim(s) == r;
    forall i | a + |r| <= i < |s| ensures IsJsSpace(s[i]) {
      assert s[i] == t[i - a];
    }
  }

  lemma {:induction false} TrimStartOfTrimmed(s: string)
    requires s == [] || !IsJsSpace(s[0])
    ensures TrimStart(s) == s
  {
  }

  /** Trimming a string that neither starts nor ends with white space changes nothing. */
  lemma TrimOfTrimmed(s: string)
    requires s == [] || (!IsJsSpace(s[0]) && !IsJsSpace(s[|s| - 1]))
    ensures Trim(s) == s
  {
    TrimStartOfTrimmed(s);
  }

  /** `trim` is idempotent. */
  lemma TrimIdempotent(s: string)
    ensures Trim(Trim(s)) == Trim(s)
  {
    TrimOfTrimmed(Trim(s));
  }

  // ---------- split(/\s+/) ----------

  /** Index of the first white-space character at or after `from`, or `|s|` if there is none. */
  function NextSpace(s: string, from: nat): (i: nat)
    requires from <= |s|
    ensures from <= i <= |s|
    ensures forall k :: from <= k < i ==> !IsJsSpace(s[k])
    ensures i < |s| ==> IsJsSpace(s[i])
    decreases |s| - from
  {
    if from == |s| || IsJsSpace(s[from]) then from else NextSpace(s, from + 1)
  }

  /** Index just past the run of white space that starts at `from`. */
  function SkipSpace(s: string, from: nat): (j: nat)
    requires from <= |s|
    ensures from <= j <= |s|
    ensures forall k :: from <= k < j ==> IsJsSpace(s[k])
    ensures j < |s| ==> !IsJsSpace(s[j])
    decreases |s| - from
  {
    if from < |s| && IsJsSpace(s[from]) then SkipSpace(s, from + 1) else from
  }

  /** `s.split(/\s+/)`: the pieces between maximal runs of white space, in order.
      A string without white space is one piece; `""` gives `[""]`. */
  function SplitSpaces(s: string): (r: seq<string>)
    ensures |r| >= 1
    ensures forall k :: 0 <= k < |r| ==> !HasSpace(r[k])
    decreases |s|
  {
    var i := NextSpace(s, 0);
    if i == |s| then [s]
    else
      var j := SkipSpace(s, i);
      [s[..i]] + SplitSpaces(s[j..])
  }

  /** `tokens.join(sep)` for a separator string. */
  function Join(parts: seq<string>, sep: string): string
  {
    if |parts| == 0 then ""
    else if |parts| == 1 then parts[0]
    else parts[0] + sep + Join(parts[1..], sep)
  }

  /** A join is empty for no parts; otherwise it starts with the first part and ends with
      the last. */
  lemma {:induction false} JoinEnds(parts: seq<string>, sep: string)
    ensures parts == [] ==> Join(parts, sep) == ""
    ensures parts != [] ==> var r := Join(parts, sep);
      |parts[0]| <= |r| && r[..|parts[0]|] == parts[0]
    ensures parts != [] ==> var r, last := Join(parts, sep), parts[|parts| - 1];
      |last| <= |r| && r[|r| - |last|..] == last
  {
    if |parts| > 1 {
      JoinEnds(parts[1..], sep);
      var r := Join(parts, sep);
      var tail := Join(parts[1..], sep);
      var last := parts[|parts| - 1];
      assert parts[1..][|parts| - 2] == last;
      assert r == parts[0] + sep + tail;
      assert r[|r| - |last|..] == tail[|tail| - |last|..];
    }
  }

  /** A string without white space is a single piece. */
  lemma {:induction false} SplitSpacesNoSpace(s: string)
    requires !HasSpace(s)
    ensures SplitSpaces(s) == [s]
  {
    assert NextSpace(s, 0) == |s|;
  }

  /** Splitting on white space undoes joining with single spaces, for tokens that
      are non-empty and hold no white space. */
  lemma {:induction false} SplitSpacesJoin(tokens: seq<string>)
    requires |tokens| >= 1
    requires forall k :: 0 <= k < |tokens| ==> tokens[k] != "" && !HasSpace(tokens[k])
    ensures SplitSpaces(Join(tokens, " ")) == tokens
  {
    if |tokens| == 1 {
      SplitSpacesNoSpace(tokens[0]);
    } else {
      var t0 := tokens[0];
      var rest := Join(tokens[1..], " ");
      var s := t0 + " " + rest;
      assert s == Join(tokens, " ");
      SplitSpacesJoin(tokens[1..]);
      JoinStartsWithToken(tokens[1..]);
      assert forall k :: 0 <= k < |t0| ==> s[k] == t0[k] && !IsJsSpace(s[k]);
      assert s[|t0|] == ' ';
      assert NextSpace(s, 0) == |t0| by {
        NextSpaceAt(s, 0, |t0|);
      }
      assert SkipSpace(s, |t0|) == |t0| + 1 by {
        assert s[|t0| + 1] == rest[0];
      }
      assert s[|t0| + 1..] == rest;
      assert s[..|t0|] == t0;
    }
  }

  /** A join of tokens that are non-empty and space-free starts with a non-space character. */
  lemma {:induction false} JoinStartsWithToken(tokens: seq<string>)
    requires |tokens| >= 1
    requires forall k :: 0 <= k < |tokens| ==> tokens[k] != "" && !HasSpace(tokens[k])
    ensures |Join(tokens, " ")| >= 1 && Join(tokens, " ")[0] == tokens[0][0]
  {
    assert !IsJsSpace(tokens[0][0]);
  }

  /** `NextSpace` stops at the first white space after `from`. */
  lemma {:induction false} NextSpaceAt(s: string, from: nat, i: nat)
    requires from <= i < |s|
    requires IsJsSpace(s[i])
    requires forall k :: from <= k < i ==> !IsJsSpace(s[k])
    ensures NextSpace(s, from) == i
    decreases i - from
  {
    if from < i {
      NextSpaceAt(s, from + 1, i);
    }
  }

  /** `SkipSpace` stops at the first non-space character after `from`, or at the end. */
  lemma {:induction false} SkipSpaceAt(s: string, from: nat, j: nat)
    requires from <= j <= |s|
    requires forall k :: from <= k < j ==> IsJsSpace(s[k])
    requires j == |s| || !IsJsSpace(s[j])
    ensures SkipSpace(s, from) == j
    decreases j - from
  {
    if from < j {
      SkipSpaceAt(s, from + 1, j);
    }
  }

  /** One step of `split(/\s+/)`: a space-free piece followed by a non-empty run of white
      space is split off, and the rest is split in the same way. With SplitSpacesNoSpace
      this fixes the pieces of every string. */
  lemma SplitSpacesStep(a: string, w: string, b: string)
    requires !HasSpace(a)
    requires w != [] && forall k :: 0 <= k < |w| ==> IsJsSpace(w[k])
    requires b == [] || !IsJsSpace(b[0])
    ensures SplitSpaces(a + w + b) == [a] + SplitSpaces(b)
  {
    var s := a + w + b;
    assert forall k :: 0 <= k < |a| ==> s[k] == a[k];
    assert forall k :: |a| <= k < |a| + |w| ==> s[k] == w[k - |a|];
    NextSpaceAt(s, 0, |a|);
    assert b != [] ==> s[|a| + |w|] == b[0];
    SkipSpaceAt(s, |a|, |a| + |w|);
    assert s[..|a|] == a;
    assert s[|a| + |w|..] == b;
  }

  /** The pieces of a string that neither starts nor ends with white space, and is not empty,
      are all non-empty: `split(/\s+/)` after `trim` yields the words. */
  lemma {:induction false} SplitSpacesOfTrimmed(s: string)
    requires s != [] && !IsJsSpace(s[0]) && !IsJsSpace(s[|s| - 1])
    ensures forall k :: 0 <= k < |SplitSpaces(s)| ==> SplitSpaces(s)[k] != ""
    decreases |s|
  {
    var i := NextSpace(s, 0);
    if i < |s| {
      var j := SkipSpace(s, i);
      assert i > 0;
      assert j < |s|;
      SplitSpacesOfTrimmed(s[j..]);
      assert SplitSpaces(s) == [s[..i]] + SplitSpaces(s[j..]);
    }
  }

  /** `s.trim().split(/\s+/)` is `[""]` for a blank string and otherwise a list of
      non-empty words. */
  lemma SplitSpacesOfTrim(s: string)
    ensures Trim(s) == [] ==> SplitSpaces(Trim(s)) == [""]
    ensures Trim(s) != [] ==> forall k :: 0 <= k < |SplitSpaces(Trim(s))| ==> SplitSpaces(Trim(s))[k] != ""
  {
    var t := Trim(s);
    if t == [] {
      assert NextSpace(t, 0) == 0;
    } else {
      SplitSpacesOfTrimmed(t);
    }
  }

  // ---------- split(c) / join(c) ----------

  function IndexOf(s: string, c: char): (i: nat)
    requires c in s
    ensures i < |s| && s[i] == c && c !in s[..i]
  {
    if s[0] == c then 0 else 1 + IndexOf(s[1..], c)
  }

  /** `s.split(c)` for a one-character separator: the pieces between occurrences of `c`. */
  function SplitOn(s: string, c: char): (r: seq<string>)
    ensures |r| >= 1
    ensures forall k :: 0 <= k < |r| ==> c !in r[k]
    decreases |s|
  {
    if c !in s then [s]
    else
      var i := IndexOf(s, c);
      [s[..i]] + SplitOn(s[i + 1..], c)
  }

  /** Joining the pieces with the separator gives the string back. */
  lemma {:induction false} JoinSplitOn(s: string, c: char)
    ensures Join(SplitOn(s, c), [c]) == s
    decreases |s|
  {
    if c in s {
      var i := IndexOf(s, c);
      var tail := SplitOn(s[i + 1..], c);
      JoinSplitOn(s[i + 1..], c);
      assert SplitOn(s, c) == [s[..i]] + tail;
      assert ([s[..i]] + tail)[1..] == tail;
      assert Join(SplitOn(s, c), [c]) == s[..i] + [c] + Join(tail, [c]);
      assert s == s[..i] + [c] + s[i + 1..];
    }
  }

  /** Splitting undoes joining, when no piece holds the separator. */
  lemma {:induction false} SplitOnJoin(parts: seq<string>, c: char)
    requires |parts| >= 1
    requires forall k :: 0 <= k < |parts| ==> c !in parts[k]
    ensures SplitOn(Join(parts, [c]), c) == parts
  {
    if |parts| > 1 {
      var s := Join(parts, [c]);
      var p := parts[0];
      assert s == p + [c] + Join(parts[1..], [c]);
      assert s[|p|] == c;
      assert s[..|p|] == p;
      IndexOfAt(s, c, |p|);
      assert s[|p| + 1..] == Join(parts[1..], [c]);
      SplitOnJoin(parts[1..], c);
      assert SplitOn(s, c) == [p] + SplitOn(Join(parts[1..], [c]), c);
      assert parts == [p] + parts[1..];
    }
  }

  /** `IndexOf` is the first occurrence of the character. */
  lemma {:induction false} IndexOfAt(s: string, c: char, i: nat)
    requires i < |s| && s[i] == c && c !in s[..i]
    ensures IndexOf(s, c) == i
  {
    if i > 0 {
      assert s[0] in s[..i];
      assert s[1..][..i - 1] == s[..i][1..];
      IndexOfAt(s[1..], c, i - 1);
    }
  }

  /** The first piece is everything before the first separator, and the other pieces,
      joined back with the separator, are everything after it: what
      `const [head, ...rest] = s.split(c); rest.join(c)` recovers. */
  lemma SplitOnFirst(s: string, c: char)
    ensures c !in s ==> SplitOn(s, c) == [s] && Join(SplitOn(s, c)[1..], [c]) == ""
    ensures c in s ==>
      var i := IndexOf(s, c);
      SplitOn(s, c)[0] == s[..i] && Join(SplitOn(s, c)[1..], [c]) == s[i + 1..]
  {
    if c in s {
      var i := IndexOf(s, c);
      var tail := SplitOn(s[i + 1..], c);
      assert SplitOn(s, c) == [s[..i]] + tail;
      assert SplitOn(s, c)[1..] == tail;
      JoinSplitOn(s[i + 1..], c);
    }
  }

  // ---------- replace(/\./g, "") ----------

  /** `s.replace(/\./g, "")`: `s` with every period removed. */
  function StripPeriods(s: string): (r: string)
    ensures '.' !in r && |r| <= |s|
    ensures multiset(r) == multiset(s)['.' := 0]
    ensures '.' !in s ==> r == s
  {
    if s == [] then []
    else
      assert s == [s[0]] + s[1..];
      if s[0] == '.' then StripPeriods(s[1..]) else [s[0]] + StripPeriods(s[1..])
  }

  /** Removing periods keeps the order of what remains: it distributes over concatenation. */
  lemma {:induction false} StripPeriodsAppend(a: string, b: string)
    ensures StripPeriods(a + b) == StripPeriods(a) + StripPeriods(b)
  {
    if a != [] {
      assert (a + b)[0] == a[0] && (a + b)[1..] == a[1..] + b;
      StripPeriodsAppend(a[1..], b);
      if a[0] != '.' {
        assert StripPeriods(a + b) == [a[0]] + (StripPeriods(a[1..]) + StripPeriods(b));
      }
    } else {
      assert a + b == b;
    }
  }

  // ---------- toLowerCase ----------

  /** `toLowerCase` on one character, exact for every character whose lower case is ASCII:
      A-Z, and KELVIN SIGN (U+212A), which lower-cases to 'k'. Every other character is kept;
      JavaScript maps some of them to other non-ASCII text, which equality against ASCII
      words cannot tell apart. */
  function LowerChar(c: char): char {
    if 'A' <= c <= 'Z' then (c as int + 32) as char
    else if c == '\U{212A}' then 'k'
    else c
  }

  /** `s.toLowerCase()`, under the reading of `LowerChar`. */
  function LowerCase(s: string): (r: string)
    ensures |r| == |s|
    ensures forall i :: 0 <= i < |s| ==> r[i] == LowerChar(s[i])
  {
    seq(|s|, i requires 0 <= i < |s| => LowerChar(s[i]))
  }

  /** Lower-casing leaves no ASCII capital behind and is idempotent. */
  lemma LowerCaseIdempotent(s: string)
    ensures forall i :: 0 <= i < |s| ==> !('A' <= LowerCase(s)[i] <= 'Z')
    ensures LowerCase(LowerCase(s)) == LowerCase(s)
  {
  }
}
