/**
 * The JavaScript string operations the core relies on: the `\s` character
 * class, `trim`, `split` on one character, `includes`, `startsWith`,
 * `replace(/\s/g, "-")` and the case maps (ASCII letters only).
 */
module Text {

  /** The characters JavaScript's `\s` matches and `trim` strips:
      ECMAScript WhiteSpace and LineTerminator. */
  predicate IsSpace(c: char)
  {
    || c == ' ' || c == '\t' || c == '\n' || c == '\U{B}' || c == '\U{C}' || c == '\r'
    || c == '\U{A0}' || c == '\U{1680}' || ('\U{2000}' <= c <= '\U{200A}')
    || c == '\U{2028}' || c == '\U{2029}' || c == '\U{202F}' || c == '\U{205F}'
    || c == '\U{3000}' || c == '\U{FEFF}'
  }

  predicate NoSpace(s: string)
  {
    forall i | 0 <= i < |s| :: !IsSpace(s[i])
  }

  predicate AllSpace(s: string)
  {
    forall i | 0 <= i < |s| :: IsSpace(s[i])
  }

  function LowerChar(c: char): char
  {
    if 'A' <= c <= 'Z' then (c as int + 32) as char else c
  }

  function UpperChar(c: char): char
  {
    if 'a' <= c <= 'z' then (c as int - 32) as char else c
  }

  /** `toLowerCase`, restricted to ASCII letters. */
  function Lower(s: string): (r: string)
    ensures |r| == |s|
    ensures forall i | 0 <= i < |s| :: r[i] == LowerChar(s[i])
  {
    seq(|s|, i requires 0 <= i < |s| => LowerChar(s[i]))
  }

  /** `toUpperCase`, restricted to ASCII letters. */
  function Upper(s: string): (r: string)
    ensures |r| == |s|
    ensures forall i | 0 <= i < |s| :: r[i] == UpperChar(s[i])
  {
    seq(|s|, i requires 0 <= i < |s| => UpperChar(s[i]))
  }

  /** Lower-casing twice is lower-casing once, and the result has no upper-case ASCII letter. */
  lemma LowerIdempotent(s: string)
    ensures Lower(Lower(s)) == Lower(s)
    ensures forall i | 0 <= i < |s| :: !('A' <= Lower(s)[i] <= 'Z')
  {
    assert forall i | 0 <= i < |s| :: Lower(Lower(s))[i] == Lower(s)[i];
  }

  /** A string without upper-case ASCII letters is its own lower-case form. */
  lemma LowerOfLowerCase(s: string)
    requires forall i | 0 <= i < |s| :: !('A' <= s[i] <= 'Z')
    ensures Lower(s) == s
  {
    assert forall i | 0 <= i < |s| :: Lower(s)[i] == s[i];
  }

  lemma LowerConcat(a: string, b: string)
    ensures Lower(a + b) == Lower(a) + Lower(b)
  {
    assert forall i | 0 <= i < |a + b| :: Lower(a + b)[i] == (Lower(a) + Lower(b))[i];
  }

  /** Lower-casing never creates nor removes the character `c` when `c` is not a letter. */
  lemma LowerKeepsNonLetter(s: string, c: char)
    requires !('A' <= c <= 'Z') && !('a' <= c <= 'z')
    ensures c in Lower(s) <==> c in s
  {
    if c in s {
      var i :| 0 <= i < |s| && s[i] == c;
      assert Lower(s)[i] == c;
    }
    if c in Lower(s) {
      var i :| 0 <= i < |s| && Lower(s)[i] == c;
      assert s[i] == c;
    }
  }

  predicate StartsWith(s: string, prefix: string)
  {
    |prefix| <= |s| && s[..|prefix|] == prefix
  }

  ghost predicate OccursAt(s: string, t: string, i: int)
  {
    0 <= i && i + |t| <= |s| && s[i..i + |t|] == t
  }

  /** `s.includes(t)`: some window of `s` equals `t`. */
  function Contains(s: string, t: string): (r: bool)
    ensures r <==> exists i :: OccursAt(s, t, i)
    decreases |s|
  {
    if |t| > |s| then false
    else if s[..|t|] == t then (assert OccursAt(s, t, 0); true)
    else
      var r := Contains(s[1..], t);
      assert forall i :: OccursAt(s[1..], t, i) <==> OccursAt(s, t, i + 1) by {
        forall i ensures OccursAt(s[1..], t, i) <==> OccursAt(s, t, i + 1) {
          if 0 <= i && i + |t| <= |s| - 1 {
            assert s[1..][i..i + |t|] == s[i + 1..i + 1 + |t|];
          }
        }
      }
      assert r ==> exists i :: OccursAt(s, t, i) by {
        if r {
          var i :| OccursAt(s[1..], t, i);
          assert OccursAt(s, t, i + 1);
        }
      }
      assert (exists i :: OccursAt(s, t, i)) ==> r by {
        if exists i :: OccursAt(s, t, i) {
          var i :| OccursAt(s, t, i);
          assert i != 0;
          assert OccursAt(s[1..], t, i - 1);
        }
      }
      r
  }

  /** Position of the first `c` in `s`. */
  function IndexOf(s: string, c: char): (k: nat)
    requires c in s
    ensures k < |s| && s[k] == c && c !in s[..k]
  {
    if s[0] == c then 0
    else
      var k := IndexOf(s[1..], c);
      assert s[..k + 1] == [s[0]] + s[1..][..k];
      k + 1
  }

  /** `parts.join(sep)`. */
  function Join(parts: seq<string>, sep: char): string
  {
    if |parts| == 0 then ""
    else if |parts| == 1 then parts[0]
    else parts[0] + [sep] + Join(parts[1..], sep)
  }

  /** `s.split(sep)` for a one-character separator: the pieces between the
      separators, including empty ones, joined back they give `s`. */
  function Split(s: string, sep: char): (parts: seq<string>)
    ensures |parts| >= 1
    ensures forall k | 0 <= k < |parts| :: sep !in parts[k]
    ensures Join(parts, sep) == s
    decreases |s|
  {
    if s == [] then [""]
    else
      var rest := Split(s[1..], sep);
      if s[0] == sep then
        assert s == [sep] + s[1..];
        [""] + rest
      else
        var parts := [[s[0]] + rest[0]] + rest[1..];
        assert Join(parts, sep) == s by {
          if |rest| >= 2 {
            assert parts[1..] == rest[1..];
            assert [s[0]] + rest[0] + [sep] + Join(rest[1..], sep) == [s[0]] + (rest[0] + [sep] + Join(rest[1..], sep));
          }
          assert s == [s[0]] + s[1..];
        }
        parts
  }

  /** A string without the separator is a single piece. */
  lemma {:induction false} SplitWithoutSeparator(w: string, sep: char)
    requires sep !in w
    ensures Split(w, sep) == [w]
    decreases |w|
  {
    if w != [] {
      SplitWithoutSeparator(w[1..], sep);
      assert [w[0]] + w[1..] == w;
    }
  }

  /** The first piece of `w + [sep] + rest` is `w` when `w` has no separator. */
  lemma {:induction false} SplitAfterWord(w: string, rest: string, sep: char)
    requires sep !in w
    ensures Split(w + [sep] + rest, sep) == [w] + Split(rest, sep)
    decreases |w|
  {
    var s := w + [sep] + rest;
    if w == [] {
      assert s[1..] == rest;
    } else {
      assert s[1..] == w[1..] + [sep] + rest;
      SplitAfterWord(w[1..], rest, sep);
      assert [w[0]] + w[1..] == w;
    }
  }

  /** Round trip in the other direction: splitting a join of separator-free
      pieces gives the pieces back. */
  lemma {:induction false} SplitJoin(parts: seq<string>, sep: char)
    requires |parts| >= 1
    requires forall k | 0 <= k < |parts| :: sep !in parts[k]
    ensures Split(Join(parts, sep), sep) == parts
    decreases |parts|
  {
    if |parts| == 1 {
      SplitWithoutSeparator(parts[0], sep);
    } else {
      SplitJoin(parts[1..], sep);
      SplitAfterWord(parts[0], Join(parts[1..], sep), sep);
      assert [parts[0]] + parts[1..] == parts;
    }
  }

  /** `trimStart` */
  function TrimStart(s: string): string
  {
    if s != [] && IsSpace(s[0]) then TrimStart(s[1..]) else s
  }

  /** `trimStart` drops a whitespace prefix, and all of it. */
  lemma {:induction false} TrimStartStripsPrefix(s: string)
    ensures var r := TrimStart(s);
      && |r| <= |s| && r == s[|s| - |r|..]
      && AllSpace(s[..|s| - |r|])
      && (r == [] || !IsSpace(r[0]))
  {
    if s != [] && IsSpace(s[0]) {
      TrimStartStripsPrefix(s[1..]);
      var r := TrimStart(s[1..]);
      assert s[..|s| - |r|] == [s[0]] + s[1..][..|s| - 1 - |r|];
    }
  }

  /** `trimEnd` */
  function TrimEnd(s: string): string
  {
    if s != [] && IsSpace(s[|s| - 1]) then TrimEnd(s[..|s| - 1]) else s
  }

  /** `trimEnd` drops a whitespace suffix, and all of it. */
  lemma {:induction false} TrimEndStripsSuffix(s: string)
    ensures var r := TrimEnd(s);
      && |r| <= |s| && r == s[..|r|]
      && AllSpace(s[|r|..])
      && (r == [] || !IsSpace(r[|r| - 1]))
  {
    if s != [] && IsSpace(s[|s| - 1]) {
      TrimEndStripsSuffix(s[..|s| - 1]);
      var r := TrimEnd(s[..|s| - 1]);
      assert s[|r|..] == s[..|s| - 1][|r|..] + [s[|s| - 1]];
    }
  }

  ghost predicate TrimmedAt(s: string, r: string, i: int)
  {
    0 <= i && i + |r| <= |s| && s[i..i + |r|] == r && AllSpace(s[..i]) && AllSpace(s[i + |r|..])
  }

  /** Stripping a whitespace prefix (leaving `t`) and then a whitespace
      suffix (leaving `r`) leaves `r` trimmed out of `s`; it is empty exactly
      when `s` is all whitespace. */
  lemma TrimmedFromParts(s: string, t: string, r: string)
    requires |t| <= |s| && t == s[|s| - |t|..] && AllSpace(s[..|s| - |t|])
    requires t == [] || !IsSpace(t[0])
    requires |r| <= |t| && r == t[..|r|] && AllSpace(t[|r|..])
    ensures TrimmedAt(s, r, |s| - |t|)
    ensures r == [] <==> AllSpace(s)
  {
    var i := |s| - |t|;
    assert s[i..i + |r|] == r;
    assert s[i + |r|..] == t[|r|..];
    if r == [] {
      assert t[0..] == t;
      assert |t| == 0;
      assert s[..i] == s;
    } else {
      assert s[i] == r[0];
    }
  }

  /** `trim`: the text of `s` between its leading and its trailing whitespace. */
  function Trim(s: string): (r: string)
    ensures r == [] || (!IsSpace(r[0]) && !IsSpace(r[|r| - 1]))
    ensures r == [] <==> AllSpace(s)
  {
    var t := TrimStart(s);
    var r := TrimEnd(t);
    TrimStartStripsPrefix(s);
    TrimEndStripsSuffix(t);
    TrimmedFromParts(s, t, r);
    r
  }

  /** `trim` removes only whitespace, and only at the two ends. */
  lemma TrimIsInfix(s: string)
    ensures exists i :: TrimmedAt(s, Trim(s), i)
  {
    var t := TrimStart(s);
    TrimStartStripsPrefix(s);
    TrimEndStripsSuffix(t);
    TrimmedFromParts(s, t, TrimEnd(t));
    assert TrimmedAt(s, Trim(s), |s| - |t|);
  }

  /** Trimming an already trimmed string changes nothing. */
  lemma TrimIdempotent(s: string)
    ensures Trim(Trim(s)) == Trim(s)
  {
    var r := Trim(s);
    assert TrimStart(r) == r;
    assert TrimEnd(r) == r;
  }

  /** `s.replace(/\s/g, "-")`: every whitespace character becomes a dash. */
  function ReplaceWhitespace(s: string): (r: string)
    ensures |r| == |s| && NoSpace(r)
    ensures forall i | 0 <= i < |s| :: r[i] == (if IsSpace(s[i]) then '-' else s[i])
  {
    if s == [] then [] else [if IsSpace(s[0]) then '-' else s[0]] + ReplaceWhitespace(s[1..])
  }

  /** Replacing whitespace in a string that has none changes nothing. */
  lemma ReplaceWhitespaceIdempotent(s: string)
    ensures ReplaceWhitespace(ReplaceWhitespace(s)) == ReplaceWhitespace(s)
  {
  }
}
