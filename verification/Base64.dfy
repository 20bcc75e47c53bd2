/** Base64 as encoding/base64 implements it (sections 3.5, 4 and 5 of RFC 4648): standard and URL
    alphabets, with and without padding, strict and lenient about unused trailing bits. The
    decoder skips carriage returns and line feeds wherever they stand. */
module Base64 {
  import opened Common

  type Byte = x: nat | x < 256

  datatype Encoding = Encoding(url: bool, padded: bool, strict: bool)

  const STD := Encoding(false, true, false)
  const RAW_STD_STRICT := Encoding(false, false, true)
  const RAW_URL_STRICT := Encoding(true, false, true)

  function Letter(url: bool, v: nat): char
    requires v < 64
  {
    if v < 26 then 'A' + v as char
    else if v < 52 then 'a' + (v - 26) as char
    else if v < 62 then '0' + (v - 52) as char
    else if v == 62 then (if url then '-' else '+')
    else if url then '_' else '/'
  }

  function Sextet(url: bool, c: char): Option<nat> {
    if 'A' <= c <= 'Z' then Some((c - 'A') as nat)
    else if 'a' <= c <= 'z' then Some((c - 'a') as nat + 26)
    else if '0' <= c <= '9' then Some((c - '0') as nat + 52)
    else if c == (if url then '-' else '+') then Some(62)
    else if c == (if url then '_' else '/') then Some(63)
    else None
  }

  predicate IsLetter(url: bool, c: char) {
    Sextet(url, c).Some?
  }

  lemma LetterSextet(url: bool, v: nat)
    requires v < 64
    ensures Sextet(url, Letter(url, v)) == Some(v)
  {
  }

  lemma SextetLetter(url: bool, c: char)
    requires IsLetter(url, c)
    ensures Sextet(url, c).value < 64 && Letter(url, Sextet(url, c).value) == c
  {
  }

  /** Three bytes become four letters; one or two left over become two or three and padding. */
  function Encode(e: Encoding, b: seq<Byte>): string
    decreases |b|
  {
    if |b| == 0 then ""
    else if |b| == 1 then
      [Letter(e.url, b[0] / 4), Letter(e.url, b[0] % 4 * 16)] + (if e.padded then "==" else "")
    else if |b| == 2 then
      [Letter(e.url, b[0] / 4), Letter(e.url, b[0] % 4 * 16 + b[1] / 16), Letter(e.url, b[1] % 16 * 4)]
      + (if e.padded then "=" else "")
    else
      [Letter(e.url, b[0] / 4), Letter(e.url, b[0] % 4 * 16 + b[1] / 16),
       Letter(e.url, b[1] % 16 * 4 + b[2] / 64), Letter(e.url, b[2] % 64)]
      + Encode(e, b[3..])
  }

  function One(x: nat, y: nat): Byte
    requires x < 64 && y < 64
  {
    x * 4 + y / 16
  }

  function Two(y: nat, z: nat): Byte
    requires y < 64 && z < 64
  {
    y % 16 * 16 + z / 4
  }

  function Three(z: nat, w: nat): Byte
    requires z < 64 && w < 64
  {
    z % 4 * 64 + w
  }

  predicate Letters(url: bool, s: string) {
    forall i :: 0 <= i < |s| ==> IsLetter(url, s[i])
  }

  function Code(e: Encoding, c: char): (v: nat)
    requires IsLetter(e.url, c)
    ensures v < 64
  {
    Sextet(e.url, c).value
  }

  /** The letters of a final quantum of two or three letters, without its padding. */
  function LastQuantum(e: Encoding, s: string): Option<string> {
    if !e.padded then
      if (|s| == 2 || |s| == 3) && Letters(e.url, s) then Some(s) else None
    else if |s| == 4 && s[3] == '=' then
      if s[2] == '=' then
        if Letters(e.url, s[..2]) then Some(s[..2]) else None
      else if Letters(e.url, s[..3]) then Some(s[..3]) else None
    else None
  }

  function DecodeLast(e: Encoding, q: string): Option<seq<Byte>>
    requires (|q| == 2 || |q| == 3) && Letters(e.url, q)
  {
    var x, y := Code(e, q[0]), Code(e, q[1]);
    if |q| == 2 then
      if e.strict && y % 16 != 0 then None else Some([One(x, y)])
    else
      var z := Code(e, q[2]);
      if e.strict && z % 4 != 0 then None else Some([One(x, y), Two(y, z)])
  }

  function DecodeClean(e: Encoding, s: string): Option<seq<Byte>>
    decreases |s|
  {
    if s == "" then Some([])
    else if |s| >= 4 && Letters(e.url, s[..4]) then
      var x, y, z, w := Code(e, s[..4][0]), Code(e, s[..4][1]), Code(e, s[..4][2]), Code(e, s[..4][3]);
      var rest := DecodeClean(e, s[4..]);
      if rest.None? then None else Some([One(x, y), Two(y, z), Three(z, w)] + rest.value)
    else
      var q := LastQuantum(e, s);
      if q.None? then None else DecodeLast(e, q.value)
  }

  predicate IsNewline(c: char) {
    c == '\r' || c == '\n'
  }

  function Strip(s: string): string {
    if s == "" then "" else (if IsNewline(s[0]) then "" else [s[0]]) + Strip(s[1..])
  }

  predicate NoNewline(s: string) {
    forall i :: 0 <= i < |s| ==> !IsNewline(s[i])
  }

  function Decode(e: Encoding, s: string): Option<seq<Byte>> {
    DecodeClean(e, Strip(s))
  }

  // ----- proofs -----

  lemma {:induction false} StripIdentity(s: string)
    ensures Strip(s) == s <==> NoNewline(s)
    ensures |Strip(s)| <= |s|
  {
    if s != "" {
      StripIdentity(s[1..]);
      assert s == [s[0]] + s[1..];
      if Strip(s) == s {
        assert Strip(s)[1..] == s[1..];
      }
    }
  }

  /** Line breaks cost length. */
  lemma {:induction false} StripShortens(s: string)
    ensures |Strip(s)| == |s| ==> Strip(s) == s
  {
    if s != "" {
      StripShortens(s[1..]);
      StripIdentity(s[1..]);
    }
  }

  predicate EncodingChar(e: Encoding, c: char) {
    IsLetter(e.url, c) || (e.padded && c == '=')
  }

  lemma EncodeAlphabet(e: Encoding, b: seq<Byte>)
    ensures forall i :: 0 <= i < |Encode(e, b)| ==> EncodingChar(e, Encode(e, b)[i])
    ensures NoNewline(Encode(e, b))
  {
    forall i | 0 <= i < |Encode(e, b)|
      ensures EncodingChar(e, Encode(e, b)[i]) && !IsNewline(Encode(e, b)[i])
    {
      EncodedLetter(e, b, i);
      NotANewline(e, Encode(e, b)[i]);
    }
  }

  lemma NotANewline(e: Encoding, c: char)
    requires EncodingChar(e, c)
    ensures !IsNewline(c)
  {
  }

  lemma {:induction false} EncodedLetter(e: Encoding, b: seq<Byte>, i: nat)
    requires i < |Encode(e, b)|
    ensures EncodingChar(e, Encode(e, b)[i])
    decreases |b|
  {
    var s := Encode(e, b);
    if |b| >= 3 {
      Quantum(e, b);
      if i < 4 {
        assert s[..4][i] == s[i];
      } else {
        assert s[4..][i - 4] == s[i];
        EncodedLetter(e, b[3..], i - 4);
      }
    } else {
      Tail(e, b);
    }
  }

  lemma Quantum(e: Encoding, b: seq<Byte>)
    requires |b| >= 3
    ensures var s := Encode(e, b);
            && |s| >= 4 && s[4..] == Encode(e, b[3..]) && Letters(e.url, s[..4])
            && Code(e, s[..4][0]) == b[0] / 4 && Code(e, s[..4][1]) == b[0] % 4 * 16 + b[1] / 16
            && Code(e, s[..4][2]) == b[1] % 16 * 4 + b[2] / 64 && Code(e, s[..4][3]) == b[2] % 64
  {
    LetterSextet(e.url, b[0] / 4);
    LetterSextet(e.url, b[0] % 4 * 16 + b[1] / 16);
    LetterSextet(e.url, b[1] % 16 * 4 + b[2] / 64);
    LetterSextet(e.url, b[2] % 64);
  }

  lemma Regroup(b0: Byte, b1: Byte, b2: Byte)
    ensures One(b0 / 4, b0 % 4 * 16 + b1 / 16) == b0
    ensures Two(b0 % 4 * 16 + b1 / 16, b1 % 16 * 4 + b2 / 64) == b1
    ensures Three(b1 % 16 * 4 + b2 / 64, b2 % 64) == b2
  {
  }

  /** A string that ends in padding at its fourth place is a final quantum. */
  lemma FinalQuantum(e: Encoding, q: string)
    requires (|q| == 2 || |q| == 3) && Letters(e.url, q)
    ensures DecodeClean(e, q + Padding(e, |q|)) == DecodeLast(e, q)
  {
    var s := q + Padding(e, |q|);
    if e.padded {
      assert s[3] == '=' && !IsLetter(e.url, s[..4][3]);
    }
    if |q| == 2 {
      assert s[..2] == q;
    } else {
      assert IsLetter(e.url, q[2]) && s[..3] == q;
    }
  }

  function Padding(e: Encoding, letters: nat): string {
    if !e.padded then "" else if letters == 2 then "==" else "="
  }

  /** One or two trailing bytes decode to themselves, and their unused bits are zero. */
  lemma Tail(e: Encoding, b: seq<Byte>)
    requires |b| == 1 || |b| == 2
    ensures DecodeClean(e, Encode(e, b)) == Some(b)
    ensures forall i :: 0 <= i < |Encode(e, b)| ==> EncodingChar(e, Encode(e, b)[i])
  {
    var q := TailLetters(e, b);
    FinalQuantum(e, q);
    var p := Padding(e, |q|);
    assert forall i :: 0 <= i < |p| ==> p[i] == '=' && e.padded;
    assert forall i :: 0 <= i < |q + p| ==> (q + p)[i] == if i < |q| then q[i] else p[i - |q|];
  }

  lemma SpareBits(b0: Byte, b1: Byte)
    ensures b0 % 4 * 16 % 16 == 0 && b1 % 16 * 4 % 4 == 0
    ensures One(b0 / 4, b0 % 4 * 16) == b0
    ensures One(b0 / 4, b0 % 4 * 16 + b1 / 16) == b0
    ensures Two(b0 % 4 * 16 + b1 / 16, b1 % 16 * 4) == b1
  {
  }

  lemma TailLetters(e: Encoding, b: seq<Byte>) returns (q: string)
    requires |b| == 1 || |b| == 2
    ensures |q| == |b| + 1 && Letters(e.url, q) && Encode(e, b) == q + Padding(e, |q|)
    ensures Code(e, q[0]) == b[0] / 4
    ensures |b| == 1 ==> Code(e, q[1]) == b[0] % 4 * 16
    ensures |b| == 2 ==> Code(e, q[1]) == b[0] % 4 * 16 + b[1] / 16 && Code(e, q[2]) == b[1] % 16 * 4
    ensures DecodeLast(e, q) == Some(b)
  {
    LetterSextet(e.url, b[0] / 4);
    SpareBits(b[0], if |b| == 1 then 0 else b[1]);
    if |b| == 1 {
      LetterSextet(e.url, b[0] % 4 * 16);
      q := [Letter(e.url, b[0] / 4), Letter(e.url, b[0] % 4 * 16)];
      assert b == [b[0]];
    } else {
      LetterSextet(e.url, b[0] % 4 * 16 + b[1] / 16);
      LetterSextet(e.url, b[1] % 16 * 4);
      q := [Letter(e.url, b[0] / 4), Letter(e.url, b[0] % 4 * 16 + b[1] / 16), Letter(e.url, b[1] % 16 * 4)];
      assert b == [b[0], b[1]];
    }
  }

  lemma {:induction false} CleanRoundTrip(e: Encoding, b: seq<Byte>)
    ensures DecodeClean(e, Encode(e, b)) == Some(b)
    decreases |b|
  {
    if |b| == 1 || |b| == 2 {
      Tail(e, b);
    } else if |b| >= 3 {
      CleanRoundTrip(e, b[3..]);
      Quantum(e, b);
      Regroup(b[0], b[1], b[2]);
      assert b == [b[0], b[1], b[2]] + b[3..];
    }
  }

  /** Every byte string survives printing and parsing, in every variant. */
  lemma RoundTrip(e: Encoding, b: seq<Byte>)
    ensures Decode(e, Encode(e, b)) == Some(b)
  {
    EncodeAlphabet(e, b);
    StripIdentity(Encode(e, b));
    CleanRoundTrip(e, b);
  }

  /** The two alphabets, as tables 1 and 2 of RFC 4648 list them. */
  lemma AlphabetsAre(url: bool, v: nat)
    requires v < 64
    ensures v < 26 ==> Letter(url, v) == "ABCDEFGHIJKLMNOPQRSTUVWXYZ"[v]
    ensures 26 <= v < 52 ==> Letter(url, v) == "abcdefghijklmnopqrstuvwxyz"[v - 26]
    ensures 52 <= v < 62 ==> Letter(url, v) == "0123456789"[v - 52]
    ensures v >= 62 ==> Letter(url, v) == (if url then "-_" else "+/")[v - 62]
  {
  }

  /** The test vectors of section 10 of RFC 4648. */
  lemma TestVectors()
    ensures Encode(STD, []) == "" && Encode(STD, [102]) == "Zg==" && Encode(STD, [102, 111]) == "Zm8="
    ensures Encode(STD, [102, 111, 111]) == "Zm9v" && Encode(STD, [102, 111, 111, 98]) == "Zm9vYg=="
    ensures Encode(STD, [102, 111, 111, 98, 97]) == "Zm9vYmE="
    ensures Encode(STD, [102, 111, 111, 98, 97, 114]) == "Zm9vYmFy"
  {
  }

  /** Without padding, n bytes take the ceiling of 4n/3 letters. */
  lemma {:induction false} RawLength(e: Encoding, b: seq<Byte>)
    requires !e.padded
    ensures |Encode(e, b)| == (4 * |b| + 2) / 3
    decreases |b|
  {
    if |b| >= 3 {
      RawLength(e, b[3..]);
    }
  }

  lemma {:induction false} PaddedLength(e: Encoding, b: seq<Byte>)
    requires e.padded
    ensures |Encode(e, b)| == (|b| + 2) / 3 * 4
    decreases |b|
  {
    if |b| >= 3 {
      PaddedLength(e, b[3..]);
    }
  }

  // ----- when is the text determined by the bytes? -----

  lemma Resplit(x: nat, y: nat, z: nat, w: nat)
    requires x < 64 && y < 64 && z < 64 && w < 64
    ensures One(x, y) / 4 == x && One(x, y) % 4 * 16 + Two(y, z) / 16 == y
    ensures Two(y, z) % 16 * 4 + Three(z, w) / 64 == z && Three(z, w) % 64 == w
    ensures y % 16 == 0 ==> One(x, y) % 4 * 16 == y
    ensures z % 4 == 0 ==> Two(y, z) % 16 * 4 == z
  {
  }

  lemma CanonicalTail(e: Encoding, q: string)
    requires e.strict && (|q| == 2 || |q| == 3) && Letters(e.url, q) && DecodeLast(e, q).Some?
    ensures Encode(e, DecodeLast(e, q).value) == q + Padding(e, |q|)
  {
    SextetLetter(e.url, q[0]);
    SextetLetter(e.url, q[1]);
    if |q| == 2 {
      Resplit(Code(e, q[0]), Code(e, q[1]), 0, 0);
    } else {
      SextetLetter(e.url, q[2]);
      Resplit(Code(e, q[0]), Code(e, q[1]), Code(e, q[2]), 0);
    }
  }

  lemma LastQuantumText(e: Encoding, s: string)
    requires LastQuantum(e, s).Some?
    ensures var q := LastQuantum(e, s).value;
            (|q| == 2 || |q| == 3) && Letters(e.url, q) && s == q + Padding(e, |q|)
  {
  }

  lemma {:induction false} StrictClean(e: Encoding, s: string)
    requires e.strict && DecodeClean(e, s).Some?
    ensures Encode(e, DecodeClean(e, s).value) == s
    decreases |s|
  {
    if s != "" {
      if |s| >= 4 && Letters(e.url, s[..4]) {
        StrictQuantum(e, s[..4], DecodeClean(e, s[4..]).value);
        StrictClean(e, s[4..]);
        assert s == s[..4] + s[4..];
      } else {
        LastQuantumText(e, s);
        CanonicalTail(e, LastQuantum(e, s).value);
      }
    }
  }

  lemma StrictQuantum(e: Encoding, q: string, rest: seq<Byte>)
    requires |q| == 4 && Letters(e.url, q)
    ensures Encode(e, [One(Code(e, q[0]), Code(e, q[1])), Two(Code(e, q[1]), Code(e, q[2])),
                       Three(Code(e, q[2]), Code(e, q[3]))] + rest) == q + Encode(e, rest)
  {
    SextetLetter(e.url, q[0]);
    SextetLetter(e.url, q[1]);
    SextetLetter(e.url, q[2]);
    SextetLetter(e.url, q[3]);
    Resplit(Code(e, q[0]), Code(e, q[1]), Code(e, q[2]), Code(e, q[3]));
    var b := [One(Code(e, q[0]), Code(e, q[1])), Two(Code(e, q[1]), Code(e, q[2])),
              Three(Code(e, q[2]), Code(e, q[3]))] + rest;
    assert b[3..] == rest;
  }

  /** The strict decoder accepts exactly the printer's own texts, up to line breaks: a text is
      what the printer writes for b if and only if it strictly decodes to b and is one line. */
  lemma StrictIsCanonical(e: Encoding, s: string, b: seq<Byte>)
    requires e.strict
    ensures Encode(e, b) == s <==> Decode(e, s) == Some(b) && NoNewline(s)
  {
    if Encode(e, b) == s {
      RoundTrip(e, b);
      EncodeAlphabet(e, b);
    } else if Decode(e, s) == Some(b) && NoNewline(s) {
      StripIdentity(s);
      StrictClean(e, s);
    }
  }
}
