/** The pieces of JavaScript string handling the core relies on:
    `toUpperCase`, `toLowerCase`, `replace(/\s+/g, " ")`, `trim` and
    `includes`. Case mapping covers the ASCII letters only. */
module Text {

  /** The characters that JavaScript's `\s` class and `String.prototype.trim`
      treat as white space (white space and line terminators). */
  predicate IsSpace(c: char) {
    c == ' ' || ('\t' <= c <= '\r') || (c as int >= 0xA0 && ListedFrom(c, WideSpaces, 0))
  }

  /** The white-space characters outside ASCII. */
  const WideSpaces: seq<char> := ['\U{00A0}', '\U{1680}', '\U{2000}', '\U{2001}', '\U{2002}', '\U{2003}',
    '\U{2004}', '\U{2005}', '\U{2006}', '\U{2007}', '\U{2008}', '\U{2009}', '\U{200A}', '\U{2028}',
    '\U{2029}', '\U{202F}', '\U{205F}', '\U{3000}', '\U{FEFF}']

  /** `c` is one of the characters of `l` from position `i` on. */
  predicate ListedFrom(c: char, l: seq<char>, i: nat)
    decreases |l| - i
  {
    i < |l| && (l[i] == c || ListedFrom(c, l, i + 1))
  }

  predicate IsLower(c: char) { 'a' <= c <= 'z' }

  predicate IsUpper(c: char) { 'A' <= c <= 'Z' }

  function UpperChar(c: char): (u: char)
    ensures !IsLower(u)
    ensures IsSpace(u) == IsSpace(c)
    ensures !IsLower(c) ==> u == c
  {
    if IsLower(c) then (c as int - 32) as char else c
  }

  function LowerChar(c: char): (l: char)
    ensures !IsUpper(l)
    ensures IsSpace(l) == IsSpace(c)
    ensures !IsUpper(c) ==> l == c
  {
    if IsUpper(c) then (c as int + 32) as char else c
  }

  /** `s.toUpperCase()` */
  function Upper(s: string): (u: string)
    ensures |u| == |s|
    ensures forall i :: 0 <= i < |s| ==> u[i] == UpperChar(s[i])
  {
    seq(|s|, i requires 0 <= i < |s| => UpperChar(s[i]))
  }

  /** `s.toLowerCase()` */
  function Lower(s: string): (l: string)
    ensures |l| == |s|
    ensures forall i :: 0 <= i < |s| ==> l[i] == LowerChar(s[i])
  {
    seq(|s|, i requires 0 <= i < |s| => LowerChar(s[i]))
  }

  predicate NoLower(s: string) { forall i :: 0 <= i < |s| ==> !IsLower(s[i]) }

  predicate NoSpace(s: string) { forall i :: 0 <= i < |s| ==> !IsSpace(s[i]) }

  /** Upper-casing changes nothing in a string without lower-case letters. */
  lemma UpperFixed(s: string)
    requires NoLower(s)
    ensures Upper(s) == s
  {
  }

  /** Removes the leading white space (`trimStart`). */
  function TrimStart(s: string): (r: string)
    ensures |r| <= |s|
  {
    if s != [] && IsSpace(s[0]) then TrimStart(s[1..]) else s
  }

  /** What `TrimStart` returns is a suffix of its input that does not start
      with white space. */
  lemma {:induction false} TrimStartShape(s: string)
    ensures TrimStart(s) == s[|s| - |TrimStart(s)|..]
    ensures TrimStart(s) != [] ==> !IsSpace(TrimStart(s)[0])
  {
    if s != [] && IsSpace(s[0]) {
      TrimStartShape(s[1..]);
    }
  }

  /** Removes the trailing white space (`trimEnd`). */
  function TrimEnd(s: string): (r: string)
    ensures |r| <= |s|
  {
    if s != [] && IsSpace(s[|s| - 1]) then TrimEnd(s[..|s| - 1]) else s
  }

  /** What `TrimEnd` returns is a prefix of its input that does not end with
      white space. */
  lemma {:induction false} TrimEndShape(s: string)
    ensures TrimEnd(s) == s[..|TrimEnd(s)|]
    ensures TrimEnd(s) != [] ==> !IsSpace(TrimEnd(s)[|TrimEnd(s)| - 1])
  {
    if s != [] && IsSpace(s[|s| - 1]) {
      TrimEndShape(s[..|s| - 1]);
    }
  }

  /** `s.trim()` */
  function Trim(s: string): (r: string)
    ensures |r| <= |s|
  {
    TrimEnd(TrimStart(s))
  }

  /** What `Trim` returns has white space at neither end. */
  lemma TrimEnds(s: string)
    ensures Trim(s) != [] ==> !IsSpace(Trim(s)[0]) && !IsSpace(Trim(s)[|Trim(s)| - 1])
  {
    var t := TrimStart(s);
    TrimStartShape(s);
    TrimEndShape(t);
    if Trim(s) != [] {
      assert Trim(s)[0] == t[0];
    }
  }

  /** Everything `TrimStart` cuts off is white space. */
  lemma {:induction false} TrimStartCut(s: string)
    ensures forall i :: 0 <= i < |s| - |TrimStart(s)| ==> IsSpace(s[i])
    decreases |s|
  {
    if s != [] && IsSpace(s[0]) {
      TrimStartCut(s[1..]);
      assert forall i :: 1 <= i < |s| ==> s[i] == s[1..][i - 1];
    }
  }

  /** Everything `TrimEnd` cuts off is white space. */
  lemma {:induction false} TrimEndCut(s: string)
    ensures forall i :: |TrimEnd(s)| <= i < |s| ==> IsSpace(s[i])
    decreases |s|
  {
    if s != [] && IsSpace(s[|s| - 1]) {
      TrimEndCut(s[..|s| - 1]);
    }
  }

  /** What `Trim` returns is a contiguous piece of its input, and what lies
      before and after that piece is white space only. */
  lemma TrimIsSlice(s: string)
    ensures SliceAt(s, Trim(s), |s| - |TrimStart(s)|)
    ensures forall i :: 0 <= i < |s| - |TrimStart(s)| ==> IsSpace(s[i])
    ensures forall i :: |s| - |TrimStart(s)| + |Trim(s)| <= i < |s| ==> IsSpace(s[i])
  {
    var t := TrimStart(s);
    var k := |s| - |t|;
    TrimStartShape(s);
    TrimEndShape(t);
    TrimStartCut(s);
    TrimEndCut(t);
    forall i | k + |Trim(s)| <= i < |s|
      ensures IsSpace(s[i])
    {
      assert s[i] == t[i - k];
    }
  }

  /** `r` is the piece of `s` that starts at position `k`. */
  predicate SliceAt(s: string, r: string, k: int) {
    0 <= k <= |s| - |r| && r == s[k..k + |r|]
  }

  /** Trimming changes nothing in a string with white space at neither end. */
  lemma TrimFixed(s: string)
    requires s != [] ==> !IsSpace(s[0]) && !IsSpace(s[|s| - 1])
    ensures Trim(s) == s
  {
  }

  /** `s.replace(/\s+/g, " ")`: every maximal run of white space becomes
      one space. The result is empty exactly when the input is, and starts
      with white space exactly when the input does. */
  function Collapse(s: string): (r: string)
    ensures (r == []) == (s == []) && |r| <= |s|
    ensures r != [] ==> (IsSpace(r[0]) <==> IsSpace(s[0]))
    decreases |s|
  {
    if s == [] then []
    else if IsSpace(s[0]) then [' '] + Collapse(TrimStart(s[1..]))
    else [s[0]] + Collapse(s[1..])
  }

  /** White space only as ' ', never two white-space characters in a row. */
  predicate SingleSpaced(s: string) {
    (forall i :: 0 <= i < |s| && IsSpace(s[i]) ==> s[i] == ' ')
    && (forall i :: 0 <= i < |s| - 1 ==> !(IsSpace(s[i]) && IsSpace(s[i + 1])))
  }

  /** The result of collapsing is single-spaced. */
  lemma {:induction false} CollapseSingleSpaced(s: string)
    ensures SingleSpaced(Collapse(s))
    decreases |s|
  {
    if s != [] {
      var rest := if IsSpace(s[0]) then TrimStart(s[1..]) else s[1..];
      CollapseSingleSpaced(rest);
      if IsSpace(s[0]) { TrimStartShape(s[1..]); }
      var cr := Collapse(rest);
      var h := if IsSpace(s[0]) then ' ' else s[0];
      assert Collapse(s) == [h] + cr;
      assert IsSpace(h) && cr != [] ==> !IsSpace(cr[0]);
      SingleSpacedCons(h, cr);
    }
  }

  /** Putting a character in front of a single-spaced string keeps it
      single-spaced when it is not white space next to white space. */
  lemma SingleSpacedCons(h: char, t: string)
    requires SingleSpaced(t)
    requires IsSpace(h) ==> h == ' ' && (t != [] ==> !IsSpace(t[0]))
    ensures SingleSpaced([h] + t)
  {
    var r := [h] + t;
    forall i | 0 <= i < |r| && IsSpace(r[i])
      ensures r[i] == ' '
    {
      if i > 0 { assert r[i] == t[i - 1]; }
    }
    forall i | 0 <= i < |r| - 1
      ensures !(IsSpace(r[i]) && IsSpace(r[i + 1]))
    {
      if i > 0 { assert r[i] == t[i - 1] && r[i + 1] == t[i]; }
    }
  }

  /** Collapsing brings in no character other than ' '. */
  lemma {:induction false} CollapseChars(s: string)
    ensures forall c :: c in Collapse(s) ==> c == ' ' || c in s
    decreases |s|
  {
    if s != [] {
      var rest := if IsSpace(s[0]) then TrimStart(s[1..]) else s[1..];
      CollapseChars(rest);
      if IsSpace(s[0]) { TrimStartShape(s[1..]); }
      assert forall c :: c in rest ==> c in s;
      var h := if IsSpace(s[0]) then ' ' else s[0];
      assert Collapse(s) == [h] + Collapse(rest);
    }
  }

  /** The string with its white-space characters deleted. */
  function Strip(s: string): (r: string)
    ensures |r| <= |s|
  {
    if s == [] then [] else (if IsSpace(s[0]) then [] else [s[0]]) + Strip(s[1..])
  }

  /** Leading white space is not part of the stripped text. */
  lemma {:induction false} StripTrimStart(s: string)
    ensures Strip(TrimStart(s)) == Strip(s)
    decreases |s|
  {
    if s != [] && IsSpace(s[0]) {
      StripTrimStart(s[1..]);
    }
  }

  /** Collapsing touches white space only: every other character is still
      there, in its order, and nothing else is added. */
  lemma {:induction false} CollapseKeepsText(s: string)
    ensures Strip(Collapse(s)) == Strip(s)
    decreases |s|
  {
    if s != [] {
      var rest := if IsSpace(s[0]) then TrimStart(s[1..]) else s[1..];
      CollapseKeepsText(rest);
      if IsSpace(s[0]) { StripTrimStart(s[1..]); }
      var h := if IsSpace(s[0]) then ' ' else s[0];
      var c := Collapse(rest);
      assert Collapse(s) == [h] + c;
      assert ([h] + c)[0] == h && ([h] + c)[1..] == c;
    }
  }

  /** A single left-to-right pass doing the same replacement: a white-space
      character is written as ' ' unless the character before it was white
      space too, in which case it is dropped; every other character is
      copied. `afterSpace` says whether the previous character was white
      space. */
  function ScanSpaces(afterSpace: bool, s: string): string
    decreases |s|
  {
    if s == [] then []
    else if IsSpace(s[0]) then (if afterSpace then [] else [' ']) + ScanSpaces(true, s[1..])
    else [s[0]] + ScanSpaces(false, s[1..])
  }

  /** `Collapse` agrees with the one-pass replacement; after white space the
      pass skips the rest of the run as `TrimStart` does. */
  lemma {:induction false} CollapseIsScan(afterSpace: bool, s: string)
    ensures ScanSpaces(afterSpace, s) == if afterSpace then Collapse(TrimStart(s)) else Collapse(s)
    decreases |s|
  {
    if s != [] {
      CollapseIsScan(IsSpace(s[0]), s[1..]);
    }
  }

  /** Collapsing changes nothing in a string whose only white space is
      single spaces. */
  lemma {:induction false} CollapseFixed(s: string)
    requires SingleSpaced(s)
    ensures Collapse(s) == s
    decreases |s|
  {
    if s != [] {
      var t := s[1..];
      SingleSpacedTail(s);
      CollapseFixed(t);
      if IsSpace(s[0]) {
        assert TrimStart(t) == t;
      }
      assert s == [s[0]] + t;
    }
  }

  /** The tail of a single-spaced string is single-spaced, and follows a
      white-space head with something else. */
  lemma SingleSpacedTail(s: string)
    requires SingleSpaced(s) && s != []
    ensures SingleSpaced(s[1..])
    ensures IsSpace(s[0]) ==> s[0] == ' ' && (|s| > 1 ==> !IsSpace(s[1]))
  {
    var t := s[1..];
    assert forall i :: 0 <= i < |t| ==> t[i] == s[i + 1];
  }

  /** `p` is a prefix of `s`. */
  predicate StartsWith(s: string, p: string)
    decreases |p|
  {
    p == [] || (s != [] && s[0] == p[0] && StartsWith(s[1..], p[1..]))
  }

  /** `s.includes(w)` */
  predicate Contains(s: string, w: string)
    decreases |s|
  {
    StartsWith(s, w) || (s != [] && Contains(s[1..], w))
  }

  lemma {:induction false} StartsWithSlice(s: string, p: string)
    ensures StartsWith(s, p) <==> |p| <= |s| && s[..|p|] == p
    decreases |p|
  {
    if p != [] && s != [] {
      StartsWithSlice(s[1..], p[1..]);
      if |p| <= |s| {
        assert s[..|p|] == [s[0]] + s[1..][..|p| - 1];
        assert p == [p[0]] + p[1..];
      }
    }
  }

  /** `Contains` is the usual substring relation: `w` occurs in `s` at some
      position. */
  lemma {:induction false} ContainsAt(s: string, w: string)
    ensures Contains(s, w) <==> exists i :: SliceAt(s, w, i)
    decreases |s|
  {
    StartsWithSlice(s, w);
    if s == [] {
      if Contains(s, w) { assert SliceAt(s, w, 0); }
    } else {
      ContainsAt(s[1..], w);
      if Contains(s, w) {
        if StartsWith(s, w) {
          assert SliceAt(s, w, 0);
        } else {
          var i :| SliceAt(s[1..], w, i);
          assert s[i + 1..i + 1 + |w|] == s[1..][i..i + |w|];
          assert SliceAt(s, w, i + 1);
        }
      } else {
        forall i | SliceAt(s, w, i)
          ensures false
        {
          if i > 0 {
            assert s[i..i + |w|] == s[1..][i - 1..i - 1 + |w|];
            assert SliceAt(s[1..], w, i - 1);
          }
        }
      }
    }
  }

  /** A white-space character in front cannot start an occurrence of a word
      that holds no white space. */
  lemma ContainsSpaceCons(c: char, s: string, w: string)
    requires IsSpace(c) && w != [] && NoSpace(w)
    ensures Contains([c] + s, w) <==> Contains(s, w)
  {
    assert ([c] + s)[1..] == s;
  }

  lemma {:induction false} ContainsTrimStart(s: string, w: string)
    requires w != [] && NoSpace(w)
    ensures Contains(TrimStart(s), w) <==> Contains(s, w)
    decreases |s|
  {
    if s != [] && IsSpace(s[0]) {
      ContainsTrimStart(s[1..], w);
      ContainsSpaceCons(s[0], s[1..], w);
      assert s == [s[0]] + s[1..];
    }
  }

  /** A white-space character at the end cannot end an occurrence of a word
      that holds no white space. */
  lemma {:induction false} ContainsSpaceSnoc(s: string, c: char, w: string)
    requires IsSpace(c) && w != [] && NoSpace(w)
    ensures Contains(s + [c], w) <==> Contains(s, w)
    decreases |s|
  {
    StartsWithSlice(s + [c], w);
    StartsWithSlice(s, w);
    if |w| <= |s| {
      assert (s + [c])[..|w|] == s[..|w|];
    } else if |w| == |s| + 1 {
      assert (s + [c])[..|w|][|s|] == c;
      assert !IsSpace(w[|s|]);
    }
    if s != [] {
      assert (s + [c])[1..] == s[1..] + [c];
      ContainsSpaceSnoc(s[1..], c, w);
    }
  }

  lemma {:induction false} ContainsTrimEnd(s: string, w: string)
    requires w != [] && NoSpace(w)
    ensures Contains(TrimEnd(s), w) <==> Contains(s, w)
    decreases |s|
  {
    if s != [] && IsSpace(s[|s| - 1]) {
      var p := s[..|s| - 1];
      ContainsTrimEnd(p, w);
      ContainsSpaceSnoc(p, s[|s| - 1], w);
      assert s == p + [s[|s| - 1]];
    }
  }

  /** For a word without white space, collapsing runs of white space keeps
      and creates no prefix. */
  lemma {:induction false} StartsWithCollapse(s: string, w: string)
    requires NoSpace(w)
    ensures StartsWith(Collapse(s), w) <==> StartsWith(s, w)
    decreases |w|
  {
    if w != [] && s != [] && !IsSpace(s[0]) {
      assert Collapse(s) == [s[0]] + Collapse(s[1..]);
      assert ([s[0]] + Collapse(s[1..]))[1..] == Collapse(s[1..]);
      StartsWithCollapse(s[1..], w[1..]);
    }
  }

  /** For a word without white space, collapsing runs of white space keeps
      and creates no occurrence. */
  lemma {:induction false} ContainsCollapse(s: string, w: string)
    requires w != [] && NoSpace(w)
    ensures Contains(Collapse(s), w) <==> Contains(s, w)
    decreases |s|
  {
    if s != [] {
      if IsSpace(s[0]) {
        var rest := TrimStart(s[1..]);
        ContainsSpaceCons(' ', Collapse(rest), w);
        ContainsCollapse(rest, w);
        ContainsTrimStart(s[1..], w);
        ContainsSpaceCons(s[0], s[1..], w);
        assert s == [s[0]] + s[1..];
      } else {
        var x := Collapse(s[1..]);
        assert Collapse(s) == [s[0]] + x;
        assert ([s[0]] + x)[1..] == x;
        StartsWithCollapse(s, w);
        ContainsCollapse(s[1..], w);
      }
    }
  }

  lemma {:induction false} ContainsLength(s: string, w: string)
    requires Contains(s, w)
    ensures |w| <= |s|
  {
    ContainsAt(s, w);
  }
}
