/** The few `String.prototype` operations the site layer relies on, on
    strings of characters: `startsWith`/`endsWith`-style tests, `includes`,
    `trim` and the global deletion of one character (`replace(/,/g, '')`). */
module JsText {

  predicate StartsWith(s: string, p: string) {
    |p| <= |s| && s[..|p|] == p
  }

  predicate EndsWith(s: string, p: string) {
    |p| <= |s| && s[|s| - |p|..] == p
  }

  /** `sub` occurs in `s` starting at index `i`. */
  ghost predicate OccursAt(s: string, sub: string, i: int) {
    0 <= i && i + |sub| <= |s| && s[i..i + |sub|] == sub
  }

  /** `s.includes(sub)`: `sub` occurs somewhere in `s` as a contiguous block. */
  predicate Includes(s: string, sub: string)
    decreases |s|
  {
    StartsWith(s, sub) || (|s| > 0 && Includes(s[1..], sub))
  }

  lemma {:induction false} OccursAtIncludes(s: string, sub: string, i: int)
    requires OccursAt(s, sub, i)
    ensures Includes(s, sub)
    decreases i
  {
    if i > 0 {
      assert s[1..][i - 1..i - 1 + |sub|] == s[i..i + |sub|];
      OccursAtIncludes(s[1..], sub, i - 1);
    } else {
      assert s[..|sub|] == s[i..i + |sub|];
    }
  }

  lemma {:induction false} IncludesOccurs(s: string, sub: string) returns (i: int)
    requires Includes(s, sub)
    ensures OccursAt(s, sub, i)
    decreases |s|
  {
    if StartsWith(s, sub) {
      i := 0;
      assert s[i..i + |sub|] == s[..|sub|];
    } else {
      var j := IncludesOccurs(s[1..], sub);
      assert s[1..][j..j + |sub|] == s[j + 1..j + 1 + |sub|];
      i := j + 1;
    }
  }

  /** `includes` is exactly "occurs at some index". */
  lemma IncludesIff(s: string, sub: string)
    ensures Includes(s, sub) <==> exists i :: OccursAt(s, sub, i)
  {
    if Includes(s, sub) {
      var i := IncludesOccurs(s, sub);
    }
    if i :| OccursAt(s, sub, i) {
      OccursAtIncludes(s, sub, i);
    }
  }

  /** Whatever surrounds an occurrence, the occurrence is found. */
  lemma IncludesInfix(pre: string, sub: string, post: string)
    ensures Includes(pre + sub + post, sub)
  {
    var s := pre + sub + post;
    assert s[|pre|..|pre| + |sub|] == sub;
    OccursAtIncludes(s, sub, |pre|);
  }

  /** The characters `String.prototype.trim` removes: ECMAScript WhiteSpace
      (tab, vertical tab, form feed, space, no-break space, the byte order
      mark and the space separators of Unicode category Zs) and
      LineTerminator (line feed, carriage return, line and paragraph
      separator). */
  predicate IsJsWhiteSpace(c: char) {
    c == '\t' || c == '\n' || c == '\U{000B}' || c == '\U{000C}' || c == '\r' || c == ' '
    || c == '\U{00A0}' || c == '\U{1680}' || ('\U{2000}' <= c <= '\U{200A}')
    || c == '\U{2028}' || c == '\U{2029}' || c == '\U{202F}' || c == '\U{205F}'
    || c == '\U{3000}' || c == '\U{FEFF}'
  }

  predicate AllWhiteSpace(s: string) {
    forall i :: 0 <= i < |s| ==> IsJsWhiteSpace(s[i])
  }

  /** `s` neither begins nor ends with white space. */
  predicate IsTrimmed(s: string) {
    s == [] || (!IsJsWhiteSpace(s[0]) && !IsJsWhiteSpace(s[|s| - 1]))
  }

  /** Drops the leading white space of `s`. */
  function TrimStart(s: string): string
    decreases |s|
  {
    if |s| > 0 && IsJsWhiteSpace(s[0]) then TrimStart(s[1..]) else s
  }

  /** Drops the trailing white space of `s`. */
  function TrimEnd(s: string): string
    decreases |s|
  {
    if |s| > 0 && IsJsWhiteSpace(s[|s| - 1]) then TrimEnd(s[..|s| - 1]) else s
  }

  /** `s.trim()`. */
  function Trim(s: string): string {
    TrimEnd(TrimStart(s))
  }

  /** `TrimStart` cuts white space, and only white space, off the front. */
  lemma {:induction false} TrimStartShape(s: string)
    ensures |TrimStart(s)| <= |s| && TrimStart(s) == s[|s| - |TrimStart(s)|..]
    ensures AllWhiteSpace(s[..|s| - |TrimStart(s)|])
    ensures TrimStart(s) == [] || !IsJsWhiteSpace(TrimStart(s)[0])
    decreases |s|
  {
    if |s| > 0 && IsJsWhiteSpace(s[0]) {
      TrimStartShape(s[1..]);
      var r := TrimStart(s);
      assert s[..|s| - |r|] == [s[0]] + s[1..][..|s| - 1 - |r|];
    }
  }

  /** `TrimEnd` cuts white space, and only white space, off the back. */
  lemma {:induction false} TrimEndShape(s: string)
    ensures |TrimEnd(s)| <= |s| && TrimEnd(s) == s[..|TrimEnd(s)|]
    ensures AllWhiteSpace(s[|TrimEnd(s)|..])
    ensures TrimEnd(s) == [] || !IsJsWhiteSpace(TrimEnd(s)[|TrimEnd(s)| - 1])
    decreases |s|
  {
    if |s| > 0 && IsJsWhiteSpace(s[|s| - 1]) {
      TrimEndShape(s[..|s| - 1]);
      var r := TrimEnd(s);
      assert s[|r|..] == s[..|s| - 1][|r|..] + [s[|s| - 1]];
    }
  }

  /** `Trim(s)` is `s` with white space cut off at both ends, and nothing else. */
  lemma {:induction false} TrimSplit(s: string) returns (front: string, back: string)
    ensures AllWhiteSpace(front) && AllWhiteSpace(back)
    ensures s == front + Trim(s) + back
  {
    var t := TrimStart(s);
    TrimStartShape(s);
    var k := |s| - |t|;
    front := s[..k];
    assert s == front + t by {
      assert t == s[k..];
    }
    var r := TrimEnd(t);
    TrimEndShape(t);
    back := t[|r|..];
    assert t == r + back by {
      assert r == t[..|r|];
    }
    assert Trim(s) == r;
    assert front + t == front + r + back by {
      assert front + (r + back) == front + r + back;
    }
  }

  lemma {:induction false} TrimStartOfWhiteSpacePrefix(w: string, y: string)
    requires AllWhiteSpace(w)
    ensures TrimStart(w + y) == TrimStart(y)
    decreases |w|
  {
    if |w| > 0 {
      assert (w + y)[1..] == w[1..] + y;
      TrimStartOfWhiteSpacePrefix(w[1..], y);
    } else {
      assert w + y == y;
    }
  }

  lemma {:induction false} TrimEndOfWhiteSpaceSuffix(y: string, w: string)
    requires AllWhiteSpace(w)
    ensures TrimEnd(y + w) == TrimEnd(y)
    decreases |w|
  {
    if |w| > 0 {
      assert (y + w)[..|y + w| - 1] == y + w[..|w| - 1];
      TrimEndOfWhiteSpaceSuffix(y, w[..|w| - 1]);
    } else {
      assert y + w == y;
    }
  }

  lemma {:induction false} TrimStartAppend(x: string, y: string)
    ensures TrimStart(x + y) == if AllWhiteSpace(x) then TrimStart(y) else TrimStart(x) + y
    decreases |x|
  {
    if |x| == 0 {
      assert x + y == y;
    } else if IsJsWhiteSpace(x[0]) {
      assert (x + y)[1..] == x[1..] + y;
      TrimStartAppend(x[1..], y);
      assert AllWhiteSpace(x) <==> AllWhiteSpace(x[1..]) by {
        if AllWhiteSpace(x[1..]) {
          forall i | 0 <= i < |x| ensures IsJsWhiteSpace(x[i]) {
            if i > 0 { assert x[i] == x[1..][i - 1]; }
          }
        }
      }
    }
  }

  /** White space around a string does not change what `trim` leaves. */
  lemma TrimPadded(front: string, x: string, back: string)
    requires AllWhiteSpace(front) && AllWhiteSpace(back)
    ensures Trim(front + x + back) == Trim(x)
  {
    assert front + x + back == front + (x + back);
    TrimStartOfWhiteSpacePrefix(front, x + back);
    TrimStartAppend(x, back);
    if AllWhiteSpace(x) {
      TrimStartOfWhiteSpacePrefix(back, []);
      TrimStartOfWhiteSpacePrefix(x, []);
      assert back + [] == back && x + [] == x;
    } else {
      TrimEndOfWhiteSpaceSuffix(TrimStart(x), back);
    }
  }

  /** What `trim` leaves neither begins nor ends with white space. */
  lemma TrimIsTrimmed(s: string)
    ensures IsTrimmed(Trim(s))
  {
    var t := TrimStart(s);
    var r := TrimEnd(t);
    TrimStartShape(s);
    TrimEndShape(t);
    if r != [] {
      assert r[0] == t[0];
    }
  }

  /** A string without surrounding white space is its own trim. */
  lemma TrimOfTrimmed(s: string)
    requires IsTrimmed(s)
    ensures Trim(s) == s
  {
  }

  /** `s.replace(/c/g, '')`: every occurrence of `c` deleted, the other
      characters kept in order. */
  function RemoveAll(s: string, c: char): (r: string)
    ensures c !in r
    ensures |r| <= |s|
    ensures c !in s ==> r == s
    decreases |s|
  {
    if s == [] then []
    else if s[0] == c then RemoveAll(s[1..], c)
    else [s[0]] + RemoveAll(s[1..], c)
  }

  /** Only the occurrences of `c` are deleted: every other character is
      kept as often as it occurs. With `RemoveAllAppend` this fixes the
      result, order included. */
  lemma {:induction false} RemoveAllKeepsOthers(s: string, c: char)
    ensures multiset(RemoveAll(s, c)) == multiset(s)[c := 0]
    ensures |RemoveAll(s, c)| == |s| - multiset(s)[c]
    decreases |s|
  {
    if s != [] {
      assert s == [s[0]] + s[1..];
      RemoveAllKeepsOthers(s[1..], c);
    }
  }

  /** Deleting a character that is not white space commutes with trimming,
      up to the white space the deletion exposes. */
  lemma TrimOfRemoveAll(s: string, c: char)
    requires !IsJsWhiteSpace(c)
    ensures Trim(RemoveAll(s, c)) == Trim(RemoveAll(Trim(s), c))
  {
    var front, back := TrimSplit(s);
    var x := Trim(s);
    assert c !in front && c !in back;
    RemoveAllAppend(front + x, back, c);
    RemoveAllAppend(front, x, c);
    TrimPadded(front, RemoveAll(x, c), back);
  }

  /** Trimming twice is trimming once. */
  lemma TrimIdempotent(s: string)
    ensures Trim(Trim(s)) == Trim(s)
  {
    TrimIsTrimmed(s);
    TrimOfTrimmed(Trim(s));
  }

  /** Trimming keeps only characters of the original. */
  lemma TrimKeepsAbsence(s: string, c: char)
    requires c !in s
    ensures c !in Trim(s)
  {
    var front, back := TrimSplit(s);
  }

  lemma {:induction false} RemoveAllAppend(a: string, b: string, c: char)
    ensures RemoveAll(a + b, c) == RemoveAll(a, c) + RemoveAll(b, c)
    decreases |a|
  {
    if a == [] {
      assert a + b == b;
    } else {
      assert (a + b)[1..] == a[1..] + b;
      RemoveAllAppend(a[1..], b, c);
    }
  }
}
