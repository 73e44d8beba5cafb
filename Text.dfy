/** The operations of Python's `str` that the server relies on, over `string`
    (a sequence of Unicode code points): `strip`, `lower`, `upper`, `split`
    with and without a limit, and the code-point ordering `sorted` uses. */
module Text {

  /** Python's `str.isspace()`: the code points `strip()` removes. */
  predicate IsSpace(c: char)
  {
    || c == ' '
    || ('\t' <= c <= '\r')
    || ('\U{1C}' <= c <= '\U{1F}')
    || c == '\U{85}' || c == '\U{A0}' || c == '\U{1680}'
    || ('\U{2000}' <= c <= '\U{200A}')
    || c == '\U{2028}' || c == '\U{2029}' || c == '\U{202F}' || c == '\U{205F}' || c == '\U{3000}'
  }

  predicate AllSpace(s: string)
  {
    forall i :: 0 <= i < |s| ==> IsSpace(s[i])
  }

  /** A string with no white space at either end. */
  predicate Trimmed(s: string)
  {
    s == [] || (!IsSpace(s[0]) && !IsSpace(s[|s| - 1]))
  }

  /** `s.strip()`: white space is dropped from the front, then from the
      back, until both ends are other characters or nothing is left. */
  function Strip(s: string): (r: string)
    ensures |r| <= |s|
    ensures Trimmed(r)
    decreases |s|
  {
    if s == [] then []
    else if IsSpace(s[0]) then Strip(s[1..])
    else if IsSpace(s[|s| - 1]) then Strip(s[..|s| - 1])
    else s
  }

  /** `strip()` gives the empty string exactly for a string of white space. */
  lemma {:induction false} StripEmpty(s: string)
    ensures AllSpace(s) <==> Strip(s) == []
    decreases |s|
  {
    if s != [] {
      if IsSpace(s[0]) {
        StripEmpty(s[1..]);
        assert AllSpace(s) <==> AllSpace(s[1..]) by {
          if AllSpace(s[1..]) {
            forall i | 0 <= i < |s|
              ensures IsSpace(s[i])
            {
              if i > 0 {
                assert s[i] == s[1..][i - 1];
              }
            }
          }
        }
      } else {
        assert !AllSpace(s);
        if IsSpace(s[|s| - 1]) {
          StripEmpty(s[..|s| - 1]);
          assert !AllSpace(s[..|s| - 1]) by {
            assert s[..|s| - 1][0] == s[0];
          }
        }
      }
    }
  }

  /** What `strip()` keeps is a piece of its input. */
  lemma {:induction false} StripInside(s: string)
    ensures forall i :: 0 <= i < |Strip(s)| ==> Strip(s)[i] in s
    decreases |s|
  {
    if s != [] {
      if IsSpace(s[0]) {
        StripInside(s[1..]);
        assert forall c :: c in s[1..] ==> c in s;
      } else if IsSpace(s[|s| - 1]) {
        StripInside(s[..|s| - 1]);
        assert forall c :: c in s[..|s| - 1] ==> c in s;
      }
    }
  }

  /** `strip()` removes white space from both ends and nothing else: whatever
      surrounds a trimmed string with white space, stripping gives it back. */
  lemma {:induction false} StripSurrounded(a: string, m: string, b: string)
    requires AllSpace(a) && AllSpace(b) && Trimmed(m)
    ensures Strip(a + m + b) == m
    decreases |a| + |b|
  {
    var s := a + m + b;
    if a != [] {
      assert s[0] == a[0];
      assert s[1..] == a[1..] + m + b;
      StripSurrounded(a[1..], m, b);
    } else if b != [] {
      assert s == m + b;
      assert s[|s| - 1] == b[|b| - 1];
      assert s[..|s| - 1] == [] + m + b[..|b| - 1];
      if m != [] {
        assert s[0] == m[0];
      } else {
        assert s[0] == b[0];
        assert s[1..] == [] + m + b[1..];
        StripSurrounded([], m, b[1..]);
      }
      StripSurrounded([], m, b[..|b| - 1]);
    } else {
      assert s == m;
    }
  }

  /** A trimmed string is its own `strip()`. */
  lemma StripTrimmed(s: string)
    requires Trimmed(s)
    ensures Strip(s) == s
  {
  }

  /** `strip()` keeps a head that starts and ends with a character other
      than white space: only the rest of the string can lose characters. */
  lemma {:induction false} StripKeepsHead(head: string, rest: string) returns (kept: string)
    requires head != [] && !IsSpace(head[0]) && !IsSpace(head[|head| - 1])
    ensures Strip(head + rest) == head + kept
    decreases |rest|
  {
    var s := head + rest;
    if rest == [] {
      assert s == head;
      StripTrimmed(head);
      kept := [];
    } else if IsSpace(rest[|rest| - 1]) {
      assert s[..|s| - 1] == head + rest[..|rest| - 1];
      kept := StripKeepsHead(head, rest[..|rest| - 1]);
    } else {
      StripTrimmed(s);
      kept := rest;
    }
  }

  /** Python's `str.lower()` on one code point, for the ASCII letters. */
  function LowerChar(c: char): char
  {
    if 'A' <= c <= 'Z' then (c as int + 32) as char else c
  }

  /** Python's `str.upper()` on one code point, for the ASCII letters. */
  function UpperChar(c: char): char
  {
    if 'a' <= c <= 'z' then (c as int - 32) as char else c
  }

  function Lower(s: string): (r: string)
    ensures |r| == |s|
  {
    if s == [] then [] else [LowerChar(s[0])] + Lower(s[1..])
  }

  function Upper(s: string): (r: string)
    ensures |r| == |s|
  {
    if s == [] then [] else [UpperChar(s[0])] + Upper(s[1..])
  }

  /** `lower()` maps every code point on its own, and leaves no upper-case
      ASCII letter. */
  lemma {:induction false} LowerAt(s: string)
    ensures forall i :: 0 <= i < |s| ==> Lower(s)[i] == LowerChar(s[i]) && !('A' <= Lower(s)[i] <= 'Z')
  {
    if s != [] {
      LowerAt(s[1..]);
      assert forall i :: 1 <= i < |s| ==> Lower(s)[i] == Lower(s[1..])[i - 1] && s[i] == s[1..][i - 1];
    }
  }

  /** `upper()` maps every code point on its own, and leaves no lower-case
      ASCII letter. */
  lemma {:induction false} UpperAt(s: string)
    ensures forall i :: 0 <= i < |s| ==> Upper(s)[i] == UpperChar(s[i]) && !('a' <= Upper(s)[i] <= 'z')
  {
    if s != [] {
      UpperAt(s[1..]);
      assert forall i :: 1 <= i < |s| ==> Upper(s)[i] == Upper(s[1..])[i - 1] && s[i] == s[1..][i - 1];
    }
  }

  /** A string with no lower-case ASCII letter is its own upper-case form. */
  lemma {:induction false} UpperOfUpper(s: string)
    requires forall i :: 0 <= i < |s| ==> !('a' <= s[i] <= 'z')
    ensures Upper(s) == s
  {
    if s != [] {
      assert forall i :: 0 <= i < |s[1..]| ==> s[1..][i] == s[i + 1];
      UpperOfUpper(s[1..]);
      assert s == [s[0]] + s[1..];
    }
  }

  /** A string with no upper-case ASCII letter is its own lower-case form. */
  lemma {:induction false} LowerOfLower(s: string)
    requires forall i :: 0 <= i < |s| ==> !('A' <= s[i] <= 'Z')
    ensures Lower(s) == s
  {
    if s != [] {
      assert forall i :: 0 <= i < |s[1..]| ==> s[1..][i] == s[i + 1];
      LowerOfLower(s[1..]);
      assert s == [s[0]] + s[1..];
    }
  }

  /** The position of the first `c` in `s`. */
  function IndexOf(s: string, c: char): (i: nat)
    requires c in s
    ensures i < |s| && s[i] == c && c !in s[..i]
  {
    if s[0] == c then 0 else
      var j := IndexOf(s[1..], c);
      assert s[..j + 1] == [s[0]] + s[1..][..j];
      j + 1
  }

  /** The first separator after a separator-free prefix is the one right after it. */
  lemma {:induction false} IndexOfAfter(a: string, c: char, b: string)
    requires c !in a
    ensures IndexOf(a + [c] + b, c) == |a|
  {
    if a != [] {
      assert (a + [c] + b)[1..] == a[1..] + [c] + b;
      IndexOfAfter(a[1..], c, b);
    }
  }

  /** Python's `s.split(sep, 1)`: the whole string when `sep` does not occur,
      otherwise the parts before and after its first occurrence. */
  function SplitFirst(s: string, sep: char): (parts: seq<string>)
    ensures |parts| == 1 <==> sep !in s
    ensures |parts| == 1 || |parts| == 2
    ensures |parts| == 1 ==> parts[0] == s
    ensures |parts| == 2 ==> sep !in parts[0] && parts[0] + [sep] + parts[1] == s
  {
    if sep in s then
      var i := IndexOf(s, sep);
      assert s == s[..i] + [sep] + s[i + 1..];
      [s[..i], s[i + 1..]]
    else
      [s]
  }

  /** Splitting a line built from a separator-free head, the separator and a
      tail gives back the head and the tail. */
  lemma SplitFirstOf(a: string, sep: char, b: string)
    requires sep !in a
    ensures SplitFirst(a + [sep] + b, sep) == [a, b]
  {
    var s := a + [sep] + b;
    IndexOfAfter(a, sep, b);
    assert s[..|a|] == a && s[|a| + 1..] == b;
  }

  /** Python's `sep.join(parts)`. */
  function Join(parts: seq<string>, sep: char): string
    requires |parts| >= 1
  {
    if |parts| == 1 then parts[0] else parts[0] + [sep] + Join(parts[1..], sep)
  }

  /** Python's `s.split(sep)`: the pieces between the occurrences of `sep`. */
  function Split(s: string, sep: char): (parts: seq<string>)
    ensures |parts| >= 1
    decreases |s|
  {
    if sep in s then
      var i := IndexOf(s, sep);
      [s[..i]] + Split(s[i + 1..], sep)
    else
      [s]
  }

  /** The pieces `split` gives hold no separator, and joining them back with
      it gives the string. */
  lemma {:induction false} SplitParts(s: string, sep: char)
    ensures forall i :: 0 <= i < |Split(s, sep)| ==> sep !in Split(s, sep)[i]
    ensures Join(Split(s, sep), sep) == s
    decreases |s|
  {
    if sep in s {
      var i := IndexOf(s, sep);
      var rest := Split(s[i + 1..], sep);
      SplitParts(s[i + 1..], sep);
      var parts := [s[..i]] + rest;
      assert parts[1..] == rest;
      assert s == s[..i] + [sep] + s[i + 1..];
    }
  }

  /** Split undoes Join when no part contains the separator. */
  lemma {:induction false} SplitJoin(parts: seq<string>, sep: char)
    requires |parts| >= 1
    requires forall i :: 0 <= i < |parts| ==> sep !in parts[i]
    ensures Split(Join(parts, sep), sep) == parts
  {
    if |parts| > 1 {
      var tail := Join(parts[1..], sep);
      var s := parts[0] + [sep] + tail;
      IndexOfAfter(parts[0], sep, tail);
      assert s[..|parts[0]|] == parts[0] && s[|parts[0]| + 1..] == tail;
      SplitJoin(parts[1..], sep);
      assert parts == [parts[0]] + parts[1..];
    }
  }

  /** A line of three separator-free fields splits into exactly those fields. */
  lemma SplitThree(a: string, b: string, c: string, sep: char)
    requires sep !in a && sep !in b && sep !in c
    ensures Split(a + [sep] + b + [sep] + c, sep) == [a, b, c]
  {
    var parts := [a, b, c];
    assert parts[1..] == [b, c] && parts[1..][1..] == [c];
    assert Join([b, c], sep) == b + [sep] + c;
    assert Join(parts, sep) == a + [sep] + (b + [sep] + c);
    assert a + [sep] + (b + [sep] + c) == a + [sep] + b + [sep] + c;
    SplitJoin(parts, sep);
  }

  /** Python's `<` on `str`: lexicographic by code point, a proper prefix first. */
  predicate Less(a: string, b: string)
  {
    b != [] && (a == [] || a[0] < b[0] || (a[0] == b[0] && Less(a[1..], b[1..])))
  }

  lemma {:induction false} LessIrreflexive(a: string)
    ensures !Less(a, a)
  {
    if a != [] {
      LessIrreflexive(a[1..]);
    }
  }

  lemma {:induction false} LessAsymmetric(a: string, b: string)
    requires Less(a, b)
    ensures !Less(b, a)
  {
    if a != [] && a[0] == b[0] {
      LessAsymmetric(a[1..], b[1..]);
    }
  }

  lemma {:induction false} LessTransitive(a: string, b: string, c: string)
    requires Less(a, b) && Less(b, c)
    ensures Less(a, c)
  {
    if a != [] && a[0] == b[0] && b[0] == c[0] {
      LessTransitive(a[1..], b[1..], c[1..]);
    }
  }

  lemma {:induction false} LessTotal(a: string, b: string)
    ensures a == b || Less(a, b) || Less(b, a)
  {
    if a != [] && b != [] && a[0] == b[0] {
      LessTotal(a[1..], b[1..]);
      if a[1..] == b[1..] {
        assert a == [a[0]] + a[1..] && b == [b[0]] + b[1..];
      }
    }
  }
}
