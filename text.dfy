/**
 * String helpers shared by the two Flask back ends and the web client:
 * lower-casing, substring tests, whitespace stripping and splitting on a
 * separator, with the facts about them that the rest of the model uses.
 */
module Text {

  /** Lower-cases one character; only ASCII letters change. */
  function LowerChar(c: char): char
  {
    if 'A' <= c <= 'Z' then (c as int + 32) as char else c
  }

  /** `s.lower()` / `s.toLowerCase()`, restricted to ASCII letters. */
  function Lower(s: string): string
  {
    seq(|s|, i requires 0 <= i < |s| => LowerChar(s[i]))
  }

  predicate StartsWith(s: string, p: string)
  {
    |p| <= |s| && s[..|p|] == p
  }

  predicate EndsWith(s: string, p: string)
  {
    |p| <= |s| && s[|s| - |p|..] == p
  }

  /** Python's `p in s` for strings: `p` occurs somewhere in `s`. */
  predicate Contains(s: string, p: string)
  {
    StartsWith(s, p) || (s != [] && Contains(s[1..], p))
  }

  /** Contains holds exactly when `p` sits at some position of `s`. */
  lemma {:induction false} ContainsAt(s: string, p: string, i: nat)
    requires i + |p| <= |s| && s[i..i + |p|] == p
    ensures Contains(s, p)
  {
    if i > 0 {
      assert s[1..][i - 1..i - 1 + |p|] == s[i..i + |p|];
      ContainsAt(s[1..], p, i - 1);
    }
  }

  lemma {:induction false} ContainsWitness(s: string, p: string) returns (i: nat)
    requires Contains(s, p)
    ensures i + |p| <= |s| && s[i..i + |p|] == p
  {
    if StartsWith(s, p) {
      i := 0;
    } else {
      var j := ContainsWitness(s[1..], p);
      assert s[1..][j..j + |p|] == s[j + 1..j + 1 + |p|];
      i := j + 1;
    }
  }

  /** A text that lacks one of the characters of `p` does not contain `p`. */
  lemma {:induction false} MissingCharRulesOut(s: string, p: string, c: char)
    requires c in p && c !in s
    ensures !Contains(s, p)
  {
    assert |p| <= |s| ==> c !in s[..|p|];
    if s != [] {
      MissingCharRulesOut(s[1..], p, c);
    }
  }

  /** Containment is transitive: a text that contains `q` contains every part of `q`. */
  lemma ContainsTrans(s: string, q: string, p: string)
    requires Contains(s, q) && Contains(q, p)
    ensures Contains(s, p)
  {
    var i := ContainsWitness(s, q);
    var j := ContainsWitness(q, p);
    forall k | 0 <= k < |p|
      ensures s[i + j + k] == p[k]
    {
      assert q[j..j + |p|][k] == p[k];
      assert s[i..i + |q|][j + k] == q[j + k];
    }
    assert s[i + j..i + j + |p|] == p;
    ContainsAt(s, p, i + j);
  }

  /** A lower-cased text can only hold `c` where the original held `c` or its capital. */
  lemma LowerCharSource(s: string, c: char)
    requires c in Lower(s)
    ensures c in s || ('a' <= c <= 'z' && (c as int - 32) as char in s)
  {
    var i :| 0 <= i < |s| && Lower(s)[i] == c;
    assert s[i] in s;
  }

  /** A lower-case letter that a text holds in neither case is missing from its lower-cased form. */
  lemma LowerAvoids(s: string, c: char)
    requires 'a' <= c <= 'z' && c !in s && (c as int - 32) as char !in s
    ensures c !in Lower(s)
  {
    forall i | 0 <= i < |s|
      ensures Lower(s)[i] != c
    {
      assert s[i] != c && s[i] != (c as int - 32) as char;
    }
  }

  /**
   * A character `str.isspace()` accepts: the ASCII controls TAB to CR,
   * the separators 0x1C-0x1F, SPACE and the Unicode spaces and line breaks.
   */
  predicate IsSpace(c: char)
  {
    ('\t' <= c <= '\r') || ('\U{1C}' <= c <= ' ') || c == '\U{85}' || c == '\U{A0}'
    || c == '\U{1680}' || ('\U{2000}' <= c <= '\U{200A}') || c == '\U{2028}' || c == '\U{2029}'
    || c == '\U{202F}' || c == '\U{205F}' || c == '\U{3000}'
  }

  /** The end of the run of whitespace that starts at `i`. */
  function SpaceRunEnd(s: string, i: nat): (a: nat)
    requires i <= |s|
    ensures i <= a <= |s|
    ensures forall k :: i <= k < a ==> IsSpace(s[k])
    ensures a < |s| ==> !IsSpace(s[a])
    decreases |s| - i
  {
    if i < |s| && IsSpace(s[i]) then SpaceRunEnd(s, i + 1) else i
  }

  /** The start of the run of whitespace that ends at `j`, going back no further than `lo`. */
  function SpaceRunStart(s: string, lo: nat, j: nat): (b: nat)
    requires lo <= j <= |s|
    ensures lo <= b <= j
    ensures forall k :: b <= k < j ==> IsSpace(s[k])
    ensures lo < b ==> !IsSpace(s[b - 1])
    decreases j
  {
    if lo < j && IsSpace(s[j - 1]) then SpaceRunStart(s, lo, j - 1) else j
  }

  /** Where `s.strip()` starts: after the leading whitespace. */
  function StripStart(s: string): (a: nat)
    ensures a <= |s|
  {
    SpaceRunEnd(s, 0)
  }

  /** Where `s.strip()` ends: before the trailing whitespace. */
  function StripEnd(s: string): (b: nat)
    ensures StripStart(s) <= b <= |s|
  {
    SpaceRunStart(s, StripStart(s), |s|)
  }

  /** `s.strip()`: `s` without its leading and trailing whitespace. */
  function Strip(s: string): (r: string)
    ensures |r| <= |s|
    ensures r == [] || (!IsSpace(r[0]) && !IsSpace(r[|r| - 1]))
  {
    s[StripStart(s)..StripEnd(s)]
  }

  /**
   * What `s.strip()` keeps is the slice of `s` between its leading and its
   * trailing whitespace: everything cut off is whitespace.
   */
  lemma StripKeepsMiddle(s: string)
    ensures var a, b := StripStart(s), StripEnd(s);
      && Strip(s) == s[a..b]
      && (forall k :: 0 <= k < a ==> IsSpace(s[k]))
      && (forall k :: b <= k < |s| ==> IsSpace(s[k]))
  {
  }

  /** A lower-cased text lower-cases to itself. */
  lemma LowerIdempotent(s: string)
    ensures Lower(Lower(s)) == Lower(s)
  {
  }

  /**
   * `s.split(sep)` with an explicit separator: the maximal separator-free
   * pieces between separators, empty pieces included.
   */
  function Split(s: string, sep: char): (r: seq<string>)
    ensures |r| >= 1
  {
    if s == [] then [[]]
    else if s[0] == sep then [[]] + Split(s[1..], sep)
    else
      var rest := Split(s[1..], sep);
      [[s[0]] + rest[0]] + rest[1..]
  }

  /** The pieces joined back with the separator between them. */
  function Join(pieces: seq<string>, sep: char): string
  {
    if pieces == [] then []
    else if |pieces| == 1 then pieces[0]
    else pieces[0] + [sep] + Join(pieces[1..], sep)
  }

  /** Splitting loses nothing: the pieces hold no separator and join back into the text. */
  lemma {:induction false} SplitJoin(s: string, sep: char)
    ensures forall i :: 0 <= i < |Split(s, sep)| ==> sep !in Split(s, sep)[i]
    ensures Join(Split(s, sep), sep) == s
  {
    if s != [] {
      SplitJoin(s[1..], sep);
      var rest := Split(s[1..], sep);
      if s[0] == sep {
        assert Split(s, sep) == [[]] + rest;
        assert Split(s, sep)[1..] == rest;
        assert [sep] + s[1..] == s;
      } else {
        var r := Split(s, sep);
        assert r == [[s[0]] + rest[0]] + rest[1..];
        assert forall i :: 1 <= i < |r| ==> r[i] == rest[i];
        if |rest| == 1 {
          assert [s[0]] + s[1..] == s;
        } else {
          assert r[1..] == rest[1..];
          assert Join(rest, sep) == rest[0] + [sep] + Join(rest[1..], sep);
          assert [s[0]] + s[1..] == s;
        }
      }
    }
  }

  /** A piece free of the separator splits to itself. */
  lemma {:induction false} SplitNoSep(s: string, sep: char)
    requires sep !in s
    ensures Split(s, sep) == [s]
  {
    if s != [] {
      SplitNoSep(s[1..], sep);
      assert [s[0]] + s[1..] == s;
    }
  }

  /** Splitting `a + sep + b`, with `a` free of the separator, yields `a` first. */
  lemma {:induction false} SplitHead(a: string, sep: char, b: string)
    requires sep !in a
    ensures Split(a + [sep] + b, sep) == [a] + Split(b, sep)
  {
    if a == [] {
      assert a + [sep] + b == [sep] + b;
    } else {
      assert (a + [sep] + b)[1..] == a[1..] + [sep] + b;
      SplitHead(a[1..], sep, b);
      assert [a[0]] + a[1..] == a;
    }
  }
}
