/** Well-formed UTF-8 (section 4 of RFC 3629), and the cut of a text to a byte budget. */
module Utf8 {
  import opened Bytes

  predicate Tail(b: Byte) { 0x80 <= b <= 0xBF }

  /** The length of the well-formed character at the front of b; 0 if there is none. */
  function Head(b: Bytes): (n: nat)
    ensures n <= 4 && n <= |b|
  {
    if |b| == 0 then 0
    else if b[0] < 0x80 then 1
    else if |b| >= 2 && 0xC2 <= b[0] <= 0xDF && Tail(b[1]) then 2
    else if |b| >= 3 && Tail(b[2]) && (
              || (b[0] == 0xE0 && 0xA0 <= b[1] <= 0xBF)
              || (0xE1 <= b[0] <= 0xEC && Tail(b[1]))
              || (b[0] == 0xED && 0x80 <= b[1] <= 0x9F)
              || (0xEE <= b[0] <= 0xEF && Tail(b[1]))) then 3
    else if |b| >= 4 && Tail(b[2]) && Tail(b[3]) && (
              || (b[0] == 0xF0 && 0x90 <= b[1] <= 0xBF)
              || (0xF1 <= b[0] <= 0xF3 && Tail(b[1]))
              || (b[0] == 0xF4 && 0x80 <= b[1] <= 0x8F)) then 4
    else 0
  }

  predicate Valid(b: Bytes)
    decreases |b|
  {
    |b| == 0 || (Head(b) > 0 && Valid(b[Head(b)..]))
  }

  /** Valid text cut after any byte has a valid prefix that is at most three bytes shorter. */
  lemma {:induction false} CutNear(b: Bytes, k: nat) returns (j: nat)
    requires Valid(b) && k <= |b|
    ensures j <= k <= j + 3 && Valid(b[..j])
    decreases |b|
  {
    var n := Head(b);
    if k == 0 || k < n {
      j := 0;
    } else {
      var rest := CutNear(b[n..], k - n);
      j := n + rest;
      assert b[..j][..n] == b[..n] && Head(b[..j]) == n;
      assert b[..j][n..] == b[n..][..rest];
    }
  }

  /** truncateUTF8: drop bytes from the end until the text is valid. */
  method Truncate(value: Bytes, maxBytes: nat) returns (r: Bytes)
    ensures IsPrefix(r, value) && |r| <= (if |value| <= maxBytes then |value| else maxBytes)
    ensures |value| <= maxBytes ==> r == value
    ensures |value| > maxBytes ==> r == LongestCut(value, maxBytes)
  {
    if |value| <= maxBytes {
      return value;
    }
    r := value[..maxBytes];
    while !Valid(r)
      invariant |r| <= maxBytes && r == value[..|r|]
      invariant LongestCut(value, maxBytes) == LongestCut(value, |r|)
      decreases |r|
    {
      r := r[..|r| - 1];
    }
  }

  function LongestCut(value: Bytes, k: nat): (r: Bytes)
    requires k <= |value|
    ensures |r| <= k && r == value[..|r|] && Valid(r)
    ensures forall j :: |r| < j <= k ==> !Valid(value[..j])
  {
    if Valid(value[..k]) then value[..k] else LongestCut(value, k - 1)
  }

  /** The cut of valid text loses at most three bytes beyond the budget. */
  lemma CutLosesLittle(value: Bytes, k: nat)
    requires Valid(value) && k <= |value|
    ensures k <= |LongestCut(value, k)| + 3
  {
    var j := CutNear(value, k);
  }

  // ---------------------------------------------------------------- text inside text

  lemma HeadIsLocal(b: Bytes, c: Bytes)
    requires Head(b) > 0
    ensures Head(b[..Head(b)] + c) == Head(b)
  {}

  lemma CharacterThen(b: Bytes, c: Bytes)
    requires Head(b) > 0
    ensures Valid(b[..Head(b)] + c) <==> Valid(c)
  {
    HeadIsLocal(b, c);
    assert (b[..Head(b)] + c)[Head(b)..] == c;
  }

  lemma CharacterAndMore(a: Bytes, b: Bytes)
    requires Head(a) > 0
    ensures Valid(a + b) <==> Valid(a[Head(a)..] + b)
  {
    CharacterThen(a, a[Head(a)..] + b);
    assert a[..Head(a)] + (a[Head(a)..] + b) == a + b;
  }

  lemma Slices(b: Bytes, n: nat, p: nat)
    requires n <= p <= |b|
    ensures b[..p] == b[..n] + b[n..][..p - n] && b[p..] == b[n..][p - n..]
  {}

  lemma {:induction false} Joined(a: Bytes, b: Bytes)
    requires Valid(a) && Valid(b)
    ensures Valid(a + b)
    decreases |a|
  {
    if |a| == 0 {
      assert a + b == b;
    } else {
      CharacterAndMore(a, b);
      Joined(a[Head(a)..], b);
    }
  }

  /** A byte that does not continue a character starts one. */
  lemma {:induction false} StartsCharacter(b: Bytes, p: nat)
    requires Valid(b) && p < |b| && !Tail(b[p])
    ensures Valid(b[..p]) && Valid(b[p..])
    decreases |b|
  {
    if p > 0 {
      var n := Head(b);
      if p < n { TailsFollow(b, p); }
      assert b[n..][p - n] == b[p];
      StartsCharacter(b[n..], p - n);
      Slices(b, n, p);
      CharacterThen(b, b[n..][..p - n]);
    }
  }

  lemma TailsFollow(b: Bytes, p: nat)
    requires 0 < p < Head(b)
    ensures Tail(b[p])
  {}

  lemma {:induction false} RestIsValid(a: Bytes, b: Bytes)
    requires Valid(a) && Valid(a + b)
    ensures Valid(b)
    decreases |a|
  {
    if |a| == 0 {
      assert a + b == b;
    } else {
      CharacterAndMore(a, b);
      RestIsValid(a[Head(a)..], b);
    }
  }

  lemma WordAt(text: Bytes, word: Bytes, p: nat)
    requires Valid(word) && |word| > 0 && p + |word| <= |text| && text[p..p + |word|] == word
    ensures !Tail(text[p]) && text[p..] == word + text[p + |word|..]
  {
    assert text[p] == word[0];
  }

  /** UTF-8 synchronizes itself: where valid text contains valid text, what is before and behind it is valid. */
  lemma WordSplitsText(text: Bytes, word: Bytes, p: nat)
    requires Valid(text) && Valid(word) && |word| > 0
    requires p + |word| <= |text| && text[p..p + |word|] == word
    ensures Valid(text[..p]) && Valid(text[p + |word|..])
  {
    WordAt(text, word, p);
    StartsCharacter(text, p);
    RestIsValid(word, text[p + |word|..]);
  }

  // ---------------------------------------------------------------- valid text is what encoding gives

  /** A character number: no surrogate, and not above the last plane. */
  predicate Scalar(c: nat) { c <= 0x10FFFF && !(0xD800 <= c <= 0xDFFF) }

  /** Section 3 of RFC 3629. */
  function Encode(c: nat): Bytes
    requires Scalar(c)
  {
    if c < 0x80 then [c]
    else if c < 0x800 then [0xC0 + c / 0x40, 0x80 + c % 0x40]
    else if c < 0x10000 then [0xE0 + c / 0x1000, 0x80 + c / 0x40 % 0x40, 0x80 + c % 0x40]
    else [0xF0 + c / 0x40000, 0x80 + c / 0x1000 % 0x40, 0x80 + c / 0x40 % 0x40, 0x80 + c % 0x40]
  }

  function EncodeAll(cs: seq<nat>): Bytes
    requires forall c :: c in cs ==> Scalar(c)
  {
    if |cs| == 0 then [] else Encode(cs[0]) + EncodeAll(cs[1..])
  }

  lemma HeadOfEncoded(c: nat, rest: Bytes)
    requires Scalar(c)
    ensures Head(Encode(c) + rest) == |Encode(c)|
  {
    var b := Encode(c) + rest;
    assert b[..|Encode(c)|] == Encode(c);
    if 0x800 <= c < 0x10000 {
      assert b[0] == 0xE0 + c / 0x1000 && b[1] == 0x80 + c / 0x40 % 0x40 && b[2] == 0x80 + c % 0x40;
    }
  }

  /** What the byte at position k adds to a character number. */
  function Digit(b: Bytes, k: nat, base: int): int
    requires k < |b|
  {
    b[k] as int - base
  }

  /** The number of the character at the front. */
  function Decode(b: Bytes): int
    requires Head(b) > 0
  {
    match Head(b)
    case 1 => Digit(b, 0, 0)
    case 2 => Digit(b, 0, 0xC0) * 0x40 + Digit(b, 1, 0x80)
    case 3 => (Digit(b, 0, 0xE0) * 0x40 + Digit(b, 1, 0x80)) * 0x40 + Digit(b, 2, 0x80)
    case _ =>
      ((Digit(b, 0, 0xF0) * 0x40 + Digit(b, 1, 0x80)) * 0x40 + Digit(b, 2, 0x80)) * 0x40 + Digit(b, 3, 0x80)
  }

  lemma LastDigit(x: int, y: int)
    requires 0 <= y < 0x40
    ensures (x * 0x40 + y) / 0x40 == x && (x * 0x40 + y) % 0x40 == y
  {}

  lemma Digits(c: int)
    requires 0 <= c
    ensures c / 0x1000 == c / 0x40 / 0x40 && c / 0x40000 == c / 0x40 / 0x40 / 0x40
  {}

  lemma ThreeDigits(x: int, y: int, z: int)
    requires 0 <= x && 0 <= y < 0x40 && 0 <= z < 0x40
    ensures var c := (x * 0x40 + y) * 0x40 + z; c / 0x1000 == x && c / 0x40 % 0x40 == y && c % 0x40 == z
  {
    LastDigit(x * 0x40 + y, z);
    LastDigit(x, y);
    Digits((x * 0x40 + y) * 0x40 + z);
  }

  lemma FourDigits(w: int, x: int, y: int, z: int)
    requires 0 <= w && 0 <= x < 0x40 && 0 <= y < 0x40 && 0 <= z < 0x40
    ensures var c := ((w * 0x40 + x) * 0x40 + y) * 0x40 + z;
            c / 0x40000 == w && c / 0x1000 % 0x40 == x && c / 0x40 % 0x40 == y && c % 0x40 == z
  {
    ThreeDigits(w * 0x40 + x, y, z);
    LastDigit(w, x);
    Digits(((w * 0x40 + x) * 0x40 + y) * 0x40 + z);
  }

  lemma HeadIsEncoded(b: Bytes)
    requires Head(b) > 0
    ensures 0 <= Decode(b) && Scalar(Decode(b)) && b[..Head(b)] == Encode(Decode(b))
  {
    match Head(b) {
      case 1 =>
      case 2 => LastDigit(Digit(b, 0, 0xC0), Digit(b, 1, 0x80));
      case 3 => ThreeIsEncoded(b);
      case _ => FourIsEncoded(b);
    }
  }

  lemma ThreeIsEncoded(b: Bytes)
    requires Head(b) == 3
    ensures 0 <= Decode(b) && Scalar(Decode(b)) && b[..3] == Encode(Decode(b))
  {
    ThreeDigits(Digit(b, 0, 0xE0), Digit(b, 1, 0x80), Digit(b, 2, 0x80));
  }

  lemma FourIsEncoded(b: Bytes)
    requires Head(b) == 4
    ensures 0 <= Decode(b) && Scalar(Decode(b)) && b[..4] == Encode(Decode(b))
  {
    FourDigits(Digit(b, 0, 0xF0), Digit(b, 1, 0x80), Digit(b, 2, 0x80), Digit(b, 3, 0x80));
  }

  lemma {:induction false} EncodedIsValid(cs: seq<nat>)
    requires forall c :: c in cs ==> Scalar(c)
    ensures Valid(EncodeAll(cs))
  {
    if |cs| > 0 {
      HeadOfEncoded(cs[0], EncodeAll(cs[1..]));
      EncodedIsValid(cs[1..]);
      assert EncodeAll(cs)[|Encode(cs[0])|..] == EncodeAll(cs[1..]);
    }
  }

  lemma {:induction false} ValidIsEncoded(b: Bytes) returns (cs: seq<nat>)
    requires Valid(b)
    ensures (forall c :: c in cs ==> Scalar(c)) && b == EncodeAll(cs)
    decreases |b|
  {
    if |b| == 0 {
      cs := [];
    } else {
      HeadIsEncoded(b);
      var more := ValidIsEncoded(b[Head(b)..]);
      cs := [Decode(b)] + more;
      assert cs[1..] == more && b == b[..Head(b)] + b[Head(b)..];
    }
  }

  ghost predicate Encodes(cs: seq<nat>, b: Bytes) { (forall c :: c in cs ==> Scalar(c)) && EncodeAll(cs) == b }

  /** A text is valid exactly if it is the encoding of some characters. */
  lemma ValidIff(b: Bytes)
    ensures Valid(b) <==> exists cs :: Encodes(cs, b)
  {
    if Valid(b) {
      var cs := ValidIsEncoded(b);
      assert Encodes(cs, b);
    }
    if cs :| Encodes(cs, b) { EncodedIsValid(cs); }
  }
}
