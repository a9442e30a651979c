/** Removing comments from JSON with comments, outside of string literals (section 7 of RFC 8259). */
module JsonComments {
  import opened Bytes

  const QUOTE: Byte := 34
  const ESCAPE: Byte := 92
  const STAR: Byte := 42
  const NEWLINE: Byte := 10

  // ---------------------------------------------------------------- what a text consists of

  /** A literal or a comment that is not closed reaches to the end; a line comment ends before its line feed. */
  datatype Segment = Plain(b: Byte) | Literal(text: Bytes) | Comment(text: Bytes)

  /** The length of the rest of a literal, behind its opening quote. */
  function LiteralRest(x: Bytes): (n: nat)
    ensures n <= |x|
  {
    if |x| == 0 then 0
    else if x[0] == QUOTE then 1
    else if x[0] == ESCAPE && |x| > 1 then 2 + LiteralRest(x[2..])
    else 1 + LiteralRest(x[1..])
  }

  function LineRest(x: Bytes): (n: nat)
    ensures n <= |x|
  {
    if |x| == 0 || x[0] == NEWLINE then 0 else 1 + LineRest(x[1..])
  }

  function BlockRest(x: Bytes): (n: nat)
    ensures n <= |x|
  {
    if |x| == 0 then 0
    else if x[0] == STAR && |x| > 1 && x[1] == SLASH then 2
    else 1 + BlockRest(x[1..])
  }

  predicate Opens(x: Bytes, second: Byte) { |x| > 1 && x[0] == SLASH && x[1] == second }

  /** The length of the first segment. */
  function First(x: Bytes): (n: nat)
    requires |x| > 0
    ensures 0 < n <= |x|
  {
    if x[0] == QUOTE then 1 + LiteralRest(x[1..])
    else if Opens(x, SLASH) then 2 + LineRest(x[2..])
    else if Opens(x, STAR) then 2 + BlockRest(x[2..])
    else 1
  }

  function FirstSegment(x: Bytes): Segment
    requires |x| > 0
  {
    if x[0] == QUOTE then Literal(x[..First(x)])
    else if Opens(x, SLASH) || Opens(x, STAR) then Comment(x[..First(x)])
    else Plain(x[0])
  }

  function Lex(x: Bytes): seq<Segment> {
    if |x| == 0 then [] else [FirstSegment(x)] + Lex(x[First(x)..])
  }

  function TextOf(s: Segment): Bytes {
    match s
    case Plain(b) => [b]
    case Literal(text) => text
    case Comment(text) => text
  }

  function Joined(segs: seq<Segment>): Bytes {
    if |segs| == 0 then [] else TextOf(segs[0]) + Joined(segs[1..])
  }

  function WithoutComments(segs: seq<Segment>): seq<Segment> {
    if |segs| == 0 then [] else (if segs[0].Comment? then [] else [segs[0]]) + WithoutComments(segs[1..])
  }

  /** The segments are the text. */
  lemma {:induction false} LexJoins(x: Bytes)
    ensures Joined(Lex(x)) == x
    decreases |x|
  {
    if |x| > 0 {
      LexJoins(x[First(x)..]);
      assert x == x[..First(x)] + x[First(x)..];
      assert TextOf(FirstSegment(x)) == x[..First(x)];
    }
  }

  // ---------------------------------------------------------------- the scanner

  datatype Mode = Code | InString | Escaped | InLine | InBlock

  /** One round of the scanner: what it appends, how many bytes it uses, and the mode it is in then. */
  datatype Round = Round(out: Bytes, used: nat, mode: Mode)

  function Next(x: Bytes, mode: Mode): (r: Round)
    requires |x| > 0
    ensures 0 < r.used <= |x|
  {
    match mode
    case InLine => if x[0] == NEWLINE then Round([x[0]], 1, Code) else Round([], 1, InLine)
    case InBlock => if x[0] == STAR && |x| > 1 && x[1] == SLASH then Round([], 2, Code) else Round([], 1, InBlock)
    case Escaped => Round([x[0]], 1, InString)
    case InString => Round([x[0]], 1, if x[0] == ESCAPE then Escaped else if x[0] == QUOTE then Code else InString)
    case Code =>
      if x[0] == QUOTE then Round([x[0]], 1, InString)
      else if Opens(x, SLASH) then Round([], 2, InLine)
      else if Opens(x, STAR) then Round([], 2, InBlock)
      else Round([x[0]], 1, Code)
  }

  /** What the scanner appends from a mode on. */
  function Scan(x: Bytes, mode: Mode): Bytes
    decreases |x|
  {
    if |x| == 0 then [] else Next(x, mode).out + Scan(x[Next(x, mode).used..], Next(x, mode).mode)
  }

  function Strip(x: Bytes): Bytes { Scan(x, Code) }

  lemma DropMore(content: Bytes, i: nat, n: nat)
    requires i + n <= |content|
    ensures content[i..][n..] == content[i + n..]
  {}

  lemma PlusPlus(a: Bytes, b: Bytes, c: Bytes)
    ensures a + (b + c) == (a + b) + c
  {}

  lemma ScanOn(out: Bytes, content: Bytes, i: nat, mode: Mode)
    requires i < |content|
    ensures var r := Next(content[i..], mode);
            out + Scan(content[i..], mode) == (out + r.out) + Scan(content[i + r.used..], r.mode)
  {
    var x := content[i..];
    var r := Next(x, mode);
    DropMore(content, i, r.used);
    PlusPlus(out, r.out, Scan(x[r.used..], r.mode));
  }

  predicate FlagsOf(mode: Mode, inString: bool, escaped: bool, inLine: bool, inBlock: bool) {
    && inLine == mode.InLine? && inBlock == mode.InBlock?
    && inString == (mode.InString? || mode.Escaped?) && escaped == mode.Escaped?
  }

  /** stripJSONComments. */
  method StripJSONComments(content: Bytes) returns (out: Bytes)
    ensures out == Strip(content)
  {
    out := [];
    var inString, escaped, inLine, inBlock := false, false, false, false;
    var i := 0;
    ghost var mode := Code;
    while i < |content|
      invariant 0 <= i <= |content| && FlagsOf(mode, inString, escaped, inLine, inBlock)
      invariant out + Scan(content[i..], mode) == Strip(content)
    {
      var character := content[i];
      var next := if i + 1 < |content| then content[i + 1] else 0;
      ScanOn(out, content, i, mode);
      ghost var r := Next(content[i..], mode);
      ghost var end, all := i + r.used, out + r.out;
      mode := r.mode;
      i := i + 1;
      if inLine {
        if character == NEWLINE {
          inLine := false;
          out := out + [character];
        }
      } else if inBlock {
        if character == STAR && next == SLASH {
          inBlock := false;
          i := i + 1;
        }
      } else if inString {
        out := out + [character];
        if escaped {
          escaped := false;
        } else if character == ESCAPE {
          escaped := true;
        } else if character == QUOTE {
          inString := false;
        }
      } else if character == QUOTE {
        inString := true;
        out := out + [character];
      } else if character == SLASH && next == SLASH {
        inLine := true;
        i := i + 1;
      } else if character == SLASH && next == STAR {
        inBlock := true;
        i := i + 1;
      } else {
        out := out + [character];
      }
      assert i == end && out == all;
    }
  }

  // ---------------------------------------------------------------- what stripping does

  lemma {:induction false} ScanString(x: Bytes)
    ensures Scan(x, InString) == x[..LiteralRest(x)] + Strip(x[LiteralRest(x)..])
    decreases |x|
  {
    if |x| > 0 && x[0] != QUOTE {
      if x[0] == ESCAPE && |x| > 1 {
        ScanString(x[2..]);
        assert x[1..][1..] == x[2..];
        var n := LiteralRest(x[2..]);
        assert x[..2 + n] == [x[0]] + ([x[1]] + x[2..][..n]) && x[2 + n..] == x[2..][n..];
        assert Scan(x, InString) == [x[0]] + Scan(x[1..], Escaped);
      } else {
        ScanStringByte(x);
      }
    }
  }

  lemma {:induction false} ScanStringByte(x: Bytes)
    requires |x| > 0 && x[0] != QUOTE && !(x[0] == ESCAPE && |x| > 1)
    ensures Scan(x, InString) == x[..LiteralRest(x)] + Strip(x[LiteralRest(x)..])
    decreases |x|, 0
  {
    if x[0] == ESCAPE {
      assert x[1..] == [];
    } else {
      ScanString(x[1..]);
      var n := LiteralRest(x[1..]);
      assert x[..1 + n] == [x[0]] + x[1..][..n] && x[1 + n..] == x[1..][n..];
    }
  }

  lemma {:induction false} ScanLine(x: Bytes)
    ensures Scan(x, InLine) == Strip(x[LineRest(x)..])
    decreases |x|
  {
    if |x| > 0 && x[0] != NEWLINE {
      ScanLine(x[1..]);
      assert x[1..][LineRest(x[1..])..] == x[LineRest(x)..];
    } else {
      assert x[0..] == x;
    }
  }

  lemma {:induction false} ScanBlock(x: Bytes)
    ensures Scan(x, InBlock) == Strip(x[BlockRest(x)..])
    decreases |x|
  {
    if |x| > 0 && !(x[0] == STAR && |x| > 1 && x[1] == SLASH) {
      ScanBlock(x[1..]);
      assert x[1..][BlockRest(x[1..])..] == x[BlockRest(x)..];
    }
  }

  /** One segment: it is appended as it is, unless it is a comment. */
  lemma StripFirst(x: Bytes)
    requires |x| > 0
    ensures Strip(x) == (if FirstSegment(x).Comment? then [] else x[..First(x)]) + Strip(x[First(x)..])
  {
    if x[0] == QUOTE {
      ScanString(x[1..]);
      var n := LiteralRest(x[1..]);
      assert x[..1 + n] == [x[0]] + x[1..][..n] && x[1..][n..] == x[1 + n..];
    } else if Opens(x, SLASH) {
      ScanLine(x[2..]);
      assert x[2..][LineRest(x[2..])..] == x[First(x)..];
    } else if Opens(x, STAR) {
      ScanBlock(x[2..]);
      assert x[2..][BlockRest(x[2..])..] == x[First(x)..];
    }
  }

  /** Stripping is leaving the comments out. */
  lemma {:induction false} StripIsKept(x: Bytes)
    ensures Strip(x) == Joined(WithoutComments(Lex(x)))
    decreases |x|
  {
    if |x| > 0 {
      StripFirst(x);
      StripIsKept(x[First(x)..]);
      var rest := WithoutComments(Lex(x[First(x)..]));
      assert Lex(x)[0] == FirstSegment(x) && Lex(x)[1..] == Lex(x[First(x)..]);
      if FirstSegment(x).Comment? {
        assert WithoutComments(Lex(x)) == rest;
      } else {
        assert ([FirstSegment(x)] + rest)[1..] == rest;
        assert TextOf(FirstSegment(x)) == x[..First(x)];
      }
    }
  }

  /** What follows a byte that no comment starts with stays next to it. */
  lemma FirstByteStays(x: Bytes)
    requires |x| > 0 && x[0] != SLASH
    ensures |Strip(x)| > 0 && Strip(x)[0] == x[0]
  {
    StripFirst(x);
  }

  lemma {:induction false} LiteralEndsThere(x: Bytes, behind: Bytes)
    requires LiteralRest(x) < |x|
    ensures LiteralRest(x[..LiteralRest(x)] + behind) == LiteralRest(x)
    decreases |x|
  {
    var n := LiteralRest(x);
    var y := x[..n] + behind;
    if x[0] == QUOTE {
    } else if x[0] == ESCAPE && |x| > 1 {
      LiteralEndsThere(x[2..], behind);
      assert y[2..] == x[2..][..n - 2] + behind;
    } else {
      LiteralEndsThere(x[1..], behind);
      assert y[1..] == x[1..][..n - 1] + behind;
    }
  }

  /** Behind a segment that is kept, stripping what follows does not change the segment. */
  lemma SegmentStays(x: Bytes)
    requires |x| > 0 && !FirstSegment(x).Comment?
    ensures Strip(x) == x[..First(x)] + Strip(x[First(x)..])
    ensures First(Strip(x)) == First(x) && FirstSegment(Strip(x)) == FirstSegment(x)
  {
    StripFirst(x);
    var n, y := First(x), Strip(x);
    var rest := x[n..];
    if |rest| == 0 {
      assert y == x;
    } else if x[0] == QUOTE {
      LiteralEndsThere(x[1..], Strip(rest));
      assert y[1..] == x[1..][..n - 1] + Strip(rest);
      assert y[..n] == x[..n];
    } else if x[0] == SLASH {
      assert rest[0] == x[1];
      if rest[0] != SLASH { FirstByteStays(rest); }
    }
  }

  /** Exactly the comments go: the stripped text consists of the other segments, each byte for byte and in order.
      So its string literals are those of the text, and no comment is left or made by what is joined. */
  lemma {:induction false} StripKeepsSegments(x: Bytes)
    ensures Lex(Strip(x)) == WithoutComments(Lex(x))
    decreases |x|
  {
    if |x| > 0 {
      var rest := x[First(x)..];
      StripKeepsSegments(rest);
      if FirstSegment(x).Comment? {
        StripFirst(x);
        assert [] + Strip(rest) == Strip(rest);
      } else {
        SegmentStays(x);
        assert Strip(x)[First(x)..] == Strip(rest);
      }
    }
  }

  lemma {:induction false} NoneLeft(segs: seq<Segment>)
    ensures forall s :: s in WithoutComments(segs) ==> !s.Comment?
    ensures (forall s :: s in segs ==> !s.Comment?) ==> WithoutComments(segs) == segs
  {
    if |segs| > 0 { NoneLeft(segs[1..]); }
  }

  predicate CommentFree(x: Bytes) { forall s :: s in Lex(x) ==> !s.Comment? }

  lemma OutputIsCommentFree(x: Bytes)
    ensures CommentFree(Strip(x))
  {
    StripKeepsSegments(x);
    NoneLeft(Lex(x));
  }

  lemma StripIsIdempotent(x: Bytes)
    ensures Strip(Strip(x)) == Strip(x)
  {
    OutputIsCommentFree(x);
    UnchangedIff(Strip(x));
  }

  /** A text is unchanged exactly if it has no comment. */
  lemma UnchangedIff(x: Bytes)
    ensures Strip(x) == x <==> CommentFree(x)
  {
    if CommentFree(x) {
      NoneLeft(Lex(x));
      StripIsKept(x);
      LexJoins(x);
    }
    if Strip(x) == x { OutputIsCommentFree(x); }
  }

  // ---------------------------------------------------------------- what is a comment, and what is not

  /** Neither a quote nor a slash. */
  predicate Bare(a: Bytes) { QUOTE !in a && SLASH !in a }

  lemma {:induction false} BareStays(a: Bytes, b: Bytes)
    requires Bare(a)
    ensures Strip(a + b) == a + Strip(b)
  {
    if |a| == 0 {
      assert a + b == b;
    } else {
      var x := a + b;
      StripFirst(x);
      assert x[..1] == [a[0]] && x[1..] == a[1..] + b;
      BareStays(a[1..], b);
      assert [a[0]] + (a[1..] + Strip(b)) == a + Strip(b);
    }
  }

  lemma {:induction false} LineEnds(c: Bytes, b: Bytes)
    requires NEWLINE !in c
    ensures LineRest(c + b) == |c| + LineRest(b)
  {
    if |c| == 0 {
      assert c + b == b;
    } else {
      assert (c + b)[1..] == c[1..] + b;
      LineEnds(c[1..], b);
    }
  }

  /** Two slashes outside a literal take everything up to the end of the line, which stays. */
  lemma LineCommentGoes(a: Bytes, c: Bytes, b: Bytes)
    requires Bare(a) && NEWLINE !in c && (b == [] || b[0] == NEWLINE)
    ensures Strip(a + ([SLASH, SLASH] + c + b)) == a + Strip(b)
  {
    var x := [SLASH, SLASH] + c + b;
    BareStays(a, x);
    assert x[2..] == c + b;
    LineEnds(c, b);
    StripFirst(x);
    assert x[First(x)..] == b;
  }

  /** No star with a slash behind it. */
  predicate NoEnd(c: Bytes) { forall k :: 0 <= k < |c| - 1 ==> !Closes(c, k) }

  predicate Closes(c: Bytes, k: nat)
    requires k < |c| - 1
  {
    c[k] == STAR && c[k + 1] == SLASH
  }

  lemma {:induction false} BlockEnds(c: Bytes, b: Bytes)
    requires NoEnd(c)
    ensures BlockRest(c + [STAR, SLASH] + b) == |c| + 2 && BlockRest(c) == |c|
  {
    var x := c + [STAR, SLASH] + b;
    if |c| > 0 {
      assert x[1..] == c[1..] + [STAR, SLASH] + b;
      forall k | 0 <= k < |c[1..]| - 1 ensures !Closes(c[1..], k) { assert !Closes(c, k + 1); }
      assert |c| > 1 ==> !Closes(c, 0);
      BlockEnds(c[1..], b);
      assert x[0] == c[0] && x[1] == if |c| > 1 then c[1] else STAR;
    }
  }

  /** A slash and a star outside a literal take everything up to the next star and slash, which go too, or up to the end
      of the text. */
  lemma BlockCommentGoes(a: Bytes, c: Bytes, b: Bytes)
    requires Bare(a) && NoEnd(c)
    ensures Strip(a + ([SLASH, STAR] + c + [STAR, SLASH] + b)) == a + Strip(b)
    ensures Strip(a + ([SLASH, STAR] + c)) == a
  {
    var x, y := [SLASH, STAR] + c + [STAR, SLASH] + b, [SLASH, STAR] + c;
    BareStays(a, x);
    BareStays(a, y);
    BlockEnds(c, b);
    assert x[2..] == c + [STAR, SLASH] + b && y[2..] == c;
    StripFirst(x);
    StripFirst(y);
    assert x[First(x)..] == b && y[First(y)..] == [];
    assert a + [] == a;
  }

  /** What can stand between the quotes of a literal: any byte but a quote, or a backslash and any byte. */
  predicate Inside(s: Bytes) {
    s == [] || if s[0] == ESCAPE then |s| > 1 && Inside(s[2..]) else s[0] != QUOTE && Inside(s[1..])
  }

  lemma {:induction false} LiteralEnds(s: Bytes, b: Bytes)
    requires Inside(s)
    ensures LiteralRest(s + [QUOTE] + b) == |s| + 1 && LiteralRest(s) == |s|
    decreases |s|
  {
    var x := s + [QUOTE] + b;
    if |s| > 0 {
      if s[0] == ESCAPE {
        assert x[2..] == s[2..] + [QUOTE] + b;
        LiteralEnds(s[2..], b);
      } else {
        assert x[1..] == s[1..] + [QUOTE] + b;
        LiteralEnds(s[1..], b);
      }
    }
  }

  /** A literal stays as it is, whatever it looks like inside, closed or not. */
  lemma LiteralStays(a: Bytes, s: Bytes, b: Bytes)
    requires Bare(a) && Inside(s)
    ensures Strip(a + ([QUOTE] + s + [QUOTE] + b)) == a + ([QUOTE] + s + [QUOTE] + Strip(b))
    ensures Strip(a + ([QUOTE] + s)) == a + ([QUOTE] + s)
  {
    var x, y := [QUOTE] + s + [QUOTE] + b, [QUOTE] + s;
    BareStays(a, x);
    BareStays(a, y);
    LiteralEnds(s, b);
    assert x[1..] == s + [QUOTE] + b && y[1..] == s;
    StripFirst(x);
    StripFirst(y);
    assert x[First(x)..] == b && x[..First(x)] == [QUOTE] + s + [QUOTE];
    assert y[First(y)..] == [] && y[..First(y)] == y;
  }

  /** A slash that nothing, or neither a slash nor a star, stands behind is no comment. */
  lemma SlashStays(a: Bytes, b: Bytes)
    requires Bare(a) && (b == [] || (b[0] != SLASH && b[0] != STAR))
    ensures Strip(a + ([SLASH] + b)) == a + ([SLASH] + Strip(b))
  {
    var x := [SLASH] + b;
    BareStays(a, x);
    StripFirst(x);
    assert x[1..] == b && x[..1] == [SLASH];
  }
}
