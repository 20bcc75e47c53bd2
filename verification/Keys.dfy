/** WireGuard keys: the text form, the public-key check of internal/devices and the private-key
    printer, parser and clamping of internal/wireguard (section 5 of RFC 7748). */
module Keys {
  import opened Common
  import opened Base64

  const KEY_LENGTH := 32

  // ----- strings.TrimSpace -----

  /** unicode.IsSpace. */
  predicate IsSpace(c: char) {
    || '\t' <= c <= '\r' || c == ' ' || c == '\U{85}' || c == '\U{A0}' || c == '\U{1680}'
    || '\U{2000}' <= c <= '\U{200A}' || c == '\U{2028}' || c == '\U{2029}' || c == '\U{202F}'
    || c == '\U{205F}' || c == '\U{3000}'
  }

  function TrimLeft(s: string): string {
    if s != "" && IsSpace(s[0]) then TrimLeft(s[1..]) else s
  }

  function TrimRight(s: string): string {
    if s != "" && IsSpace(s[|s| - 1]) then TrimRight(s[..|s| - 1]) else s
  }

  function TrimSpace(s: string): string {
    TrimRight(TrimLeft(s))
  }

  // ----- public keys: what the device registry accepts -----

  predicate AllZero(b: seq<Byte>) {
    forall i :: 0 <= i < |b| ==> b[i] == 0
  }

  /** The bytes a text stands for, if it has the shape of a key. */
  function KeyBytes(text: string): Option<seq<Byte>> {
    var raw := Decode(STD, TrimSpace(text));
    if TrimSpace(text) == "" || raw.None? || |raw.value| != KEY_LENGTH then None else raw
  }

  predicate IsPublicKey(text: string) {
    KeyBytes(text).Some? && !AllZero(KeyBytes(text).value)
  }

  method ValidatePublicKey(key: string) returns (ok: bool)
    ensures ok <==> IsPublicKey(key)
  {
    var trimmed := TrimSpace(key);
    if trimmed == "" {
      return false;
    }
    var raw := Decode(STD, trimmed);
    if raw.None? || |raw.value| != KEY_LENGTH {
      return false;
    }
    var zero, i := true, 0;
    while i < |raw.value|
      invariant 0 <= i <= |raw.value|
      invariant zero <==> forall j :: 0 <= j < i ==> raw.value[j] == 0
    {
      if raw.value[i] != 0 {
        zero := false;
        break;
      }
      i := i + 1;
    }
    return !zero;
  }

  /** The registry's decoder is lenient, so the text of a key is not determined by its bytes: every
      two-byte tail has a second spelling. */
  lemma SecondSpelling(e: Encoding, b: seq<Byte>) returns (other: string)
    requires e.padded && !e.strict && |b| % 3 == 2
    ensures other != Encode(e, b) && |other| == |Encode(e, b)|
    ensures DecodeClean(e, other) == Some(b)
    ensures forall i :: 0 <= i < |other| ==> EncodingChar(e, other[i])
    decreases |b|
  {
    if |b| == 2 {
      other := SecondTail(e, b);
    } else {
      var rest := SecondSpelling(e, b[3..]);
      var s := Encode(e, b);
      other := s[..4] + rest;
      EncodeAlphabet(e, b);
      Quantum(e, b);
      QuantumDecodes(e, b, rest);
      assert s == s[..4] + Encode(e, b[3..]);
      assert other[4..] == rest;
      assert forall i :: 0 <= i < |other| ==> other[i] == if i < 4 then s[i] else rest[i - 4];
    }
  }

  lemma SecondTail(e: Encoding, b: seq<Byte>) returns (other: string)
    requires e.padded && !e.strict && |b| == 2
    ensures other != Encode(e, b) && |other| == |Encode(e, b)|
    ensures DecodeClean(e, other) == Some(b)
    ensures forall i :: 0 <= i < |other| ==> EncodingChar(e, other[i])
  {
    var q := TailLetters(e, b);
    var z := Code(e, q[2]);
    var r := [q[0], q[1], Letter(e.url, z + 1)];
    LetterSextet(e.url, z + 1);
    SpareBits(b[0], b[1]);
    assert Two(Code(e, q[1]), z + 1) == Two(Code(e, q[1]), z);
    FinalQuantum(e, r);
    other := r + "=";
    assert other[2] != Encode(e, b)[2];
  }

  /** The first four letters of an encoding decode to the first three bytes, whatever follows. */
  lemma QuantumDecodes(e: Encoding, b: seq<Byte>, rest: string)
    requires |b| >= 3 && DecodeClean(e, rest) == Some(b[3..])
    ensures |Encode(e, b)| >= 4 && DecodeClean(e, Encode(e, b)[..4] + rest) == Some(b)
  {
    Quantum(e, b);
    Regroup(b[0], b[1], b[2]);
    var s := Encode(e, b)[..4] + rest;
    assert s[..4] == Encode(e, b)[..4] && s[4..] == rest;
    assert b == [b[0], b[1], b[2]] + b[3..];
  }

  lemma NoSpaces(s: string)
    requires forall i :: 0 <= i < |s| ==> EncodingChar(STD, s[i])
    ensures TrimSpace(s) == s && NoNewline(s)
  {
  }

  /** The unique index compares texts. It does not make key bytes unique: every acceptable key has
      two different acceptable texts. */
  lemma TextIsNotBytes(b: seq<Byte>) returns (one: string, other: string)
    requires |b| == KEY_LENGTH && !AllZero(b)
    ensures one != other && IsPublicKey(one) && IsPublicKey(other)
    ensures KeyBytes(one) == KeyBytes(other) == Some(b)
  {
    one := Encode(STD, b);
    other := SecondSpelling(STD, b);
    EncodeAlphabet(STD, b);
    NoSpaces(one);
    NoSpaces(other);
    RoundTrip(STD, b);
    StripIdentity(other);
  }

  /** The text of any bytes at all is acceptable exactly when there are 32 of them, not all zero. */
  lemma AcceptedIs(b: seq<Byte>)
    ensures IsPublicKey(Encode(STD, b)) <==> |b| == 32 && exists i :: 0 <= i < |b| && b[i] != 0
  {
    EncodeAlphabet(STD, b);
    NoSpaces(Encode(STD, b));
    RoundTrip(STD, b);
  }

  predicate Canonical(text: string) {
    KeyBytes(text).Some? && Encode(STD, KeyBytes(text).value) == text
  }

  /** Exactly one text of a key is canonical, so a registry of canonical texts is unique by bytes
      as well. */
  lemma OneCanonicalText(b: seq<Byte>, text: string)
    requires |b| == KEY_LENGTH
    ensures Canonical(text) && KeyBytes(text) == Some(b) <==> text == Encode(STD, b)
  {
    EncodeAlphabet(STD, b);
    NoSpaces(Encode(STD, b));
    RoundTrip(STD, b);
  }

  // ----- private keys -----

  type Scalar = s: seq<bv8> | |s| == KEY_LENGTH witness seq(KEY_LENGTH, _ => 0)

  function ToBytes(s: seq<bv8>): (b: seq<Byte>)
    ensures |b| == |s|
  {
    seq(|s|, i requires 0 <= i < |s| => s[i] as nat)
  }

  function FromBytes(b: seq<Byte>): (s: seq<bv8>)
    ensures |s| == |b|
  {
    seq(|b|, i requires 0 <= i < |b| => b[i] as bv8)
  }

  lemma ByteConversion(x: bv8)
    ensures (x as nat) as bv8 == x
  {
  }

  lemma BytesInverse(s: seq<bv8>)
    ensures FromBytes(ToBytes(s)) == s
  {
    forall i | 0 <= i < |s| ensures FromBytes(ToBytes(s))[i] == s[i] {
      ByteConversion(s[i]);
    }
  }

  function Clamped(s: Scalar): Scalar {
    s[0 := s[0] & 248][31 := (s[31] & 127) | 64]
  }

  predicate IsClamped(s: Scalar) {
    s[0] & 7 == 0 && s[31] & 128 == 0 && s[31] & 64 == 64
  }

  method Clamp(scalar: array<bv8>)
    requires scalar.Length == KEY_LENGTH
    modifies scalar
    ensures scalar[..] == Clamped(old(scalar[..]))
    ensures IsClamped(scalar[..])
  {
    scalar[0] := scalar[0] & 248;
    scalar[31] := scalar[31] & 127;
    scalar[31] := scalar[31] | 64;
    ClampIsAccepted(old(scalar[..]));
  }

  lemma ClampBits(x: bv8)
    ensures (x & 248) & 7 == 0 && (x & 7 == 0 <==> x & 248 == x)
    ensures ((x & 127) | 64) & 128 == 0 && ((x & 127) | 64) & 64 == 64
    ensures (x & 128 == 0 && x & 64 == 64) <==> (x & 127) | 64 == x
  {
  }

  /** Clamping always yields an accepted scalar, and changes exactly the scalars that are not. */
  lemma ClampIsAccepted(s: Scalar)
    ensures IsClamped(Clamped(s))
    ensures IsClamped(s) <==> Clamped(s) == s
  {
    ClampBits(s[0]);
    ClampBits(s[31]);
    assert Clamped(s)[0] == s[0] & 248 && Clamped(s)[31] == (s[31] & 127) | 64;
    if IsClamped(s) {
      assert Clamped(s) == s;
    }
  }

  lemma ClampMeans(x: bv8)
    ensures x & 7 == 0 <==> x % 8 == 0
    ensures (x & 128 == 0 && x & 64 == 64) <==> 64 <= x < 128
    ensures (x & 248) / 8 == x / 8 && ((x & 127) | 64) % 64 == x % 64
  {
  }

  /** What section 5 of RFC 7748 asks of the number, little-endian: a multiple of 8 between 2^254 and 2^255.
      Clamping gets there by changing those five bits alone. */
  lemma ClampedIs(s: Scalar)
    ensures IsClamped(s) <==> s[0] % 8 == 0 && 64 <= s[31] < 128
    ensures forall k :: 0 < k < 31 ==> Clamped(s)[k] == s[k]
    ensures Clamped(s)[0] / 8 == s[0] / 8 && Clamped(s)[31] % 64 == s[31] % 64
  {
    ClampMeans(s[0]);
    ClampMeans(s[31]);
  }

  datatype KeyError = EmptyKey | NotBase64 | WrongLength | ZeroKey | NotClamped

  function ParseKeyBytes(text: string): Result<Scalar, KeyError> {
    var trimmed := TrimSpace(text);
    if trimmed == "" then Err(EmptyKey)
    else
      var raw := Decode(STD, trimmed);
      if raw.None? then Err(NotBase64)
      else if |raw.value| != KEY_LENGTH then Err(WrongLength)
      else Ok(FromBytes(raw.value))
  }

  function ParsePrivateKey(text: string): Result<Scalar, KeyError> {
    var parsed := ParseKeyBytes(text);
    if parsed.Err? then parsed
    else if forall i :: 0 <= i < KEY_LENGTH ==> parsed.value[i] == 0 then Err(ZeroKey)
    else if !IsClamped(parsed.value) then Err(NotClamped)
    else parsed
  }

  /** privateKeyBase64 and the newline the key file ends with. */
  function KeyFileText(s: Scalar): string {
    Encode(STD, ToBytes(s)) + "\n"
  }

  lemma TrimLine(text: string)
    requires text != "" && !IsSpace(text[0]) && !IsSpace(text[|text| - 1])
    ensures TrimSpace(text) == text && TrimSpace(text + "\n") == text
  {
    var line := text + "\n";
    assert line[0] == text[0] && line[|line| - 1] == '\n' && line[..|line| - 1] == text;
  }

  lemma NotASpace(e: Encoding, c: char)
    requires EncodingChar(e, c)
    ensures !IsSpace(c)
  {
  }

  /** An encoding of any bytes at all neither begins nor ends with a space. */
  lemma EncodedEdges(e: Encoding, b: seq<Byte>)
    requires b != []
    ensures var text := Encode(e, b); text != "" && !IsSpace(text[0]) && !IsSpace(text[|text| - 1])
  {
    var text := Encode(e, b);
    assert text != "";
    EncodeAlphabet(e, b);
    NotASpace(e, text[0]);
    NotASpace(e, text[|text| - 1]);
  }

  lemma TrimmedKeyFile(s: Scalar)
    ensures TrimSpace(KeyFileText(s)) == Encode(STD, ToBytes(s))
    ensures TrimSpace(Encode(STD, ToBytes(s))) == Encode(STD, ToBytes(s)) != ""
  {
    EncodedEdges(STD, ToBytes(s));
    TrimLine(Encode(STD, ToBytes(s)));
  }

  lemma ClampedIsNotZero(x: bv8)
    ensures x & 64 == 64 ==> x != 0
  {
  }

  lemma KeyFileParses(s: Scalar)
    ensures ParseKeyBytes(KeyFileText(s)) == ParseKeyBytes(TrimSpace(KeyFileText(s))) == Ok(s)
  {
    TrimmedKeyFile(s);
    RoundTrip(STD, ToBytes(s));
    BytesInverse(s);
  }

  lemma LengthOfKey(e: Encoding, b: seq<Byte>)
    requires e.padded && |b| == KEY_LENGTH
    ensures |Encode(e, b)| == 44
  {
    PaddedLength(e, b);
  }

  lemma KeyFileLength(s: Scalar)
    ensures |KeyFileText(s)| == 45
  {
    var text := Encode(STD, ToBytes(s));
    assert |text| == 44 by {
      LengthOfKey(STD, ToBytes(s));
    }
  }

  lemma ParsePrivate(text: string, s: Scalar)
    requires ParseKeyBytes(text) == Ok(s)
    ensures ParsePrivateKey(text) == Ok(s) <==> IsClamped(s)
  {
    ClampedIsNotZero(s[31]);
  }

  /** A scalar survives being written to the key file and read back exactly when it is clamped. */
  lemma KeyFileRoundTrip(s: Scalar)
    ensures ParsePrivateKey(TrimSpace(KeyFileText(s))) == Ok(s) <==> IsClamped(s)
  {
    KeyFileParses(s);
    ParsePrivate(TrimSpace(KeyFileText(s)), s);
  }
}
