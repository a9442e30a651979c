/** Paths below a root, as helper and client check them. */
module Paths {
  import opened Bytes
  import Utf8

  const DOT: Byte := 46
  const BACKSLASH: Byte := 92
  const HERE: Bytes := [DOT]

  const MAX_PATH := 4096
  const MAX_COMPONENT := 255
  const MAX_DEPTH := 64

  /** strings.Split at slashes. */
  function Split(s: Bytes): (r: seq<Bytes>)
    ensures |r| > 0
  {
    if |s| == 0 then [[]]
    else
      var rest := Split(s[1..]);
      if s[0] == SLASH then [[]] + rest else [[s[0]] + rest[0]] + rest[1..]
  }

  function Join(cs: seq<Bytes>): Bytes
    requires |cs| > 0
  {
    if |cs| == 1 then cs[0] else cs[0] + [SLASH] + Join(cs[1..])
  }

  /** plain: no control and no format character in it. */
  predicate ValidComponent(plain: Bytes -> bool, c: Bytes) {
    c != [] && c != HERE && c != [DOT, DOT] && |c| <= MAX_COMPONENT && Utf8.Valid(c) && plain(c)
  }

  /** validateRelativePath and validRemoteRelativePath. That the path is clean and not absolute says no more than
      that no component is empty, dot, or dot-dot. */
  predicate ValidRelative(plain: Bytes -> bool, s: Bytes, allowRoot: bool) {
    if s == HERE then allowRoot
    else
      && s != [] && |s| <= MAX_PATH && Utf8.Valid(s) && BACKSLASH !in s
      && |Split(s)| <= MAX_DEPTH && forall k :: 0 <= k < |Split(s)| ==> ValidComponent(plain, Split(s)[k])
  }

  /** searchCandidateWithin and runtimeSearchWithin. */
  predicate Within(root: Bytes, candidate: Bytes) {
    root == HERE || (|root| + 1 <= |candidate| && candidate[..|root| + 1] == root + [SLASH])
  }

  lemma JoinFirst(c: Bytes, cs: seq<Bytes>)
    requires |cs| > 0
    ensures Join([c] + cs) == c + [SLASH] + Join(cs)
  {
    assert ([c] + cs)[1..] == cs;
  }

  lemma ThreeParts(x: Byte, a: Bytes, b: Bytes)
    ensures [x] + a + [SLASH] + b == [x] + (a + [SLASH] + b)
  {}

  lemma {:induction false} JoinSplit(s: Bytes)
    ensures Join(Split(s)) == s
  {
    if |s| > 0 {
      JoinSplit(s[1..]);
      var rest := Split(s[1..]);
      if s[0] == SLASH {
        JoinFirst([], rest);
      } else if |rest| > 1 {
        JoinFirst([s[0]] + rest[0], rest[1..]);
        ThreeParts(s[0], rest[0], Join(rest[1..]));
      }
    }
  }

  lemma {:induction false} NoSlashInside(s: Bytes, k: nat)
    requires k < |Split(s)|
    ensures SLASH !in Split(s)[k]
  {
    if |s| > 0 {
      var rest := Split(s[1..]);
      if s[0] == SLASH {
        if k > 0 { NoSlashInside(s[1..], k - 1); }
      } else {
        NoSlashInside(s[1..], k);
      }
    }
  }

  lemma {:induction false} SplitWord(c: Bytes)
    requires SLASH !in c
    ensures Split(c) == [c]
  {
    if |c| > 0 {
      SplitWord(c[1..]);
      assert [c[0]] + c[1..] == c;
    }
  }

  lemma {:induction false} SplitAfterWord(c: Bytes, rest: Bytes)
    requires SLASH !in c
    ensures Split(c + [SLASH] + rest) == [c] + Split(rest)
  {
    var s := c + [SLASH] + rest;
    if |c| == 0 {
      assert s[0] == SLASH && s[1..] == rest;
    } else {
      SplitAfterWord(c[1..], rest);
      assert s[1..] == c[1..] + [SLASH] + rest && s[0] == c[0];
      assert [c[0]] + c[1..] == c;
    }
  }

  lemma {:induction false} SplitJoin(cs: seq<Bytes>)
    requires |cs| > 0 && forall k :: 0 <= k < |cs| ==> SLASH !in cs[k]
    ensures Split(Join(cs)) == cs
  {
    if |cs| == 1 {
      SplitWord(cs[0]);
    } else {
      SplitJoin(cs[1..]);
      SplitAfterWord(cs[0], Join(cs[1..]));
    }
  }

  lemma FirstParts(x: Byte, more: seq<Bytes>, last: seq<Bytes>)
    requires |more| > 0
    ensures [[]] + (more + last) == ([[]] + more) + last
    ensures [[x] + (more + last)[0]] + (more + last)[1..] == ([[x] + more[0]] + more[1..]) + last
  {
    assert (more + last)[1..] == more[1..] + last;
  }

  lemma SplitOne(x: Byte, s: Bytes)
    ensures Split([x] + s) == if x == SLASH then [[]] + Split(s) else [[x] + Split(s)[0]] + Split(s)[1..]
  {
    assert ([x] + s)[1..] == s;
  }

  lemma {:induction false} SplitJoined(a: Bytes, b: Bytes)
    ensures Split(a + [SLASH] + b) == Split(a) + Split(b)
  {
    if |a| == 0 {
      assert a + [SLASH] + b == [SLASH] + b;
      SplitOne(SLASH, b);
    } else {
      var rest := a[1..] + [SLASH] + b;
      SplitJoined(a[1..], b);
      assert a + [SLASH] + b == [a[0]] + rest && a == [a[0]] + a[1..];
      SplitOne(a[0], rest);
      SplitOne(a[0], a[1..]);
      FirstParts(a[0], Split(a[1..]), Split(b));
    }
  }

  lemma {:induction false} JoinAppend(cs: seq<Bytes>, c: Bytes)
    requires |cs| > 0
    ensures Join(cs + [c]) == Join(cs) + [SLASH] + c
  {
    if |cs| == 1 {
      assert (cs + [c])[1..] == [c];
    } else {
      assert (cs + [c])[1..] == cs[1..] + [c];
      JoinAppend(cs[1..], c);
    }
  }

  /** The path of the first n components. */
  function Ancestor(s: Bytes, n: nat): Bytes
    requires 0 < n <= |Split(s)|
  {
    Join(Split(s)[..n])
  }

  /** An ancestor, followed by a slash, is a prefix of any lower one, followed by a slash. */
  lemma {:induction false} AncestorIsPrefix(cs: seq<Bytes>, n: nat, m: nat)
    requires 0 < n <= m <= |cs|
    ensures IsPrefix(Join(cs[..n]) + [SLASH], Join(cs[..m]) + [SLASH])
    ensures n < m ==> |Join(cs[..n])| < |Join(cs[..m])|
    decreases m - n
  {
    if n < m {
      AncestorIsPrefix(cs, n, m - 1);
      assert cs[..m] == cs[..m - 1] + [cs[m - 1]];
      JoinAppend(cs[..m - 1], cs[m - 1]);
      PrefixExtends(Join(cs[..n]) + [SLASH], Join(cs[..m - 1]) + [SLASH], cs[m - 1] + [SLASH]);
      assert Join(cs[..m]) + [SLASH] == Join(cs[..m - 1]) + [SLASH] + (cs[m - 1] + [SLASH]);
    }
  }

  lemma PrefixExtends(a: Bytes, b: Bytes, more: Bytes)
    requires IsPrefix(a, b)
    ensures IsPrefix(a, b + more)
  {}

  /** Every ancestor of a valid path is a valid path. */
  lemma AncestorIsValid(plain: Bytes -> bool, s: Bytes, n: nat)
    requires ValidRelative(plain, s, false) && 0 < n <= |Split(s)|
    ensures ValidRelative(plain, Ancestor(s, n), false)
  {
    var cs := Split(s);
    var a := Ancestor(s, n);
    JoinSplit(s);
    forall k | 0 <= k < |cs| ensures SLASH !in cs[k] { NoSlashInside(s, k); }
    SplitJoin(cs[..n]);
    assert cs[..|cs|] == cs;
    AncestorIsPrefix(cs, n, |cs|);
    assert IsPrefix(a + [SLASH], s + [SLASH]);
    PrefixOf(a, s);
    AncestorIsText(s, a);
    SplitHere();
    assert Split(a)[0] == cs[0] && ValidComponent(plain, cs[0]);
  }

  lemma SplitHere()
    ensures Split(HERE) == [HERE] && Split([]) == [[]]
  {
    SplitWord(HERE);
  }

  lemma PrefixOf(a: Bytes, s: Bytes)
    requires IsPrefix(a + [SLASH], s + [SLASH])
    ensures a == s || (|a| < |s| && s[|a|] == SLASH)
    ensures IsPrefix(a, s)
  {
    assert (s + [SLASH])[..|a| + 1] == a + [SLASH];
    assert (s + [SLASH])[|a|] == SLASH;
    assert (s + [SLASH])[..|a|] == (a + [SLASH])[..|a|] == a;
  }

  lemma AncestorIsText(s: Bytes, a: Bytes)
    requires Utf8.Valid(s) && IsPrefix(a, s) && (a == s || (|a| < |s| && s[|a|] == SLASH))
    ensures Utf8.Valid(a)
  {
    if a != s { Utf8.StartsCharacter(s, |a|); }
  }

  // ---------------------------------------------------------------- which paths are valid

  /** A name: not empty, neither dot nor dot-dot, at most 255 bytes of text, all plain, no slash and no backslash. */
  predicate Name(plain: Bytes -> bool, c: Bytes) {
    && 1 <= |c| <= 255 && c != [46] && c != [46, 46] && Utf8.Valid(c) && plain(c) && SLASH !in c && BACKSLASH !in c
  }

  ghost predicate NamesOf(plain: Bytes -> bool, cs: seq<Bytes>, s: Bytes) {
    1 <= |cs| <= 64 && (forall c :: c in cs ==> Name(plain, c)) && Join(cs) == s && |s| <= 4096
  }

  lemma {:induction false} JoinIsText(cs: seq<Bytes>)
    requires |cs| > 0 && forall c :: c in cs ==> Utf8.Valid(c) && BACKSLASH !in c
    ensures Utf8.Valid(Join(cs)) && BACKSLASH !in Join(cs)
  {
    if |cs| > 1 {
      JoinIsText(cs[1..]);
      assert [SLASH][1..] == [];
      Utf8.Joined(cs[0], [SLASH]);
      Utf8.Joined(cs[0] + [SLASH], Join(cs[1..]));
    }
  }

  lemma {:induction false} PartOfJoin(cs: seq<Bytes>, c: Bytes)
    requires |cs| > 0 && c in cs
    ensures forall x :: x in c ==> x in Join(cs)
  {
    if |cs| > 1 && c != cs[0] { PartOfJoin(cs[1..], c); }
  }

  lemma JoinedIsValid(plain: Bytes -> bool, cs: seq<Bytes>, s: Bytes)
    requires NamesOf(plain, cs, s)
    ensures ValidRelative(plain, s, false)
  {
    forall k | 0 <= k < |cs| ensures Name(plain, cs[k]) && ValidComponent(plain, cs[k]) { assert cs[k] in cs; }
    SplitJoin(cs);
    JoinIsText(cs);
    SplitHere();
    assert Split(s) == cs && s != HERE && s != [];
  }

  /** A path is valid exactly if it joins at most 64 names with slashes, and has at most 4096 bytes. */
  lemma ValidPathIff(plain: Bytes -> bool, s: Bytes)
    ensures ValidRelative(plain, s, false) <==> exists cs :: NamesOf(plain, cs, s)
  {
    if cs :| NamesOf(plain, cs, s) { JoinedIsValid(plain, cs, s); }
    if ValidRelative(plain, s, false) {
      var cs := Split(s);
      JoinSplit(s);
      forall c | c in cs ensures Name(plain, c) {
        var k :| 0 <= k < |cs| && cs[k] == c;
        NoSlashInside(s, k);
        PartOfJoin(cs, c);
      }
      assert NamesOf(plain, cs, s);
    }
  }

  /** The root of a search is valid only where it is asked for. */
  lemma HereIsValidIff(plain: Bytes -> bool, s: Bytes)
    ensures ValidRelative(plain, s, true) <==> s == [46] || ValidRelative(plain, s, false)
    ensures !ValidRelative(plain, [46], false)
  {}

  /** A path is within the root itself, or below a directory of it. */
  lemma WithinIff(root: Bytes, candidate: Bytes)
    ensures Within(root, candidate) <==> root == [46] || exists rest :: candidate == root + [SLASH] + rest
  {
    if Within(root, candidate) && root != HERE {
      assert candidate == root + [SLASH] + candidate[|root| + 1..];
    }
  }
}
