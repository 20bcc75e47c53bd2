/** internal/auth's password hashes: Argon2id in PHC string format, printed and parsed.

    Argon2 itself is a parameter of which only the length of its result is used. Salts are given,
    not drawn. */
module Password {
  import opened Common
  import opened Base64
  import Decimal
  import Keys

  const U32 := 0x1_0000_0000
  const ARGON2_VERSION := 19
  const MIN_LENGTH := 12
  const MAX_LENGTH := 1024

  datatype Params = Params(memory: nat, iterations: nat, parallelism: nat, saltLength: nat, keyLength: nat)

  const DEFAULT := Params(19 * 1024, 2, 1, 16, 32)
  const ZERO := Params(0, 0, 0, 0, 0)

  /** The fields are uint32, and uint8 for the lanes. */
  predicate Fits(p: Params) {
    p.memory < U32 && p.iterations < U32 && p.parallelism < 256 && p.saltLength < U32 && p.keyLength < U32
  }

  predicate Valid(p: Params) {
    p.memory > 0 && p.iterations > 0 && p.parallelism > 0 && p.saltLength >= 8 && p.keyLength >= 16
  }

  predicate WeakerThan(p: Params, other: Params) {
    p.memory < other.memory || p.iterations < other.iterations || p.keyLength < other.keyLength
  }

  /** Password, salt and cost to key. */
  type Kdf = (string, seq<Byte>, Params) -> seq<Byte>

  ghost predicate IsKdf(kdf: Kdf) {
    forall password, salt, p :: |kdf(password, salt, p)| == p.keyLength
  }

  datatype HashError = BadParams | TooShort | TooLong | InvalidHash | IncompatibleVersion

  datatype Decoded = Decoded(params: Params, salt: seq<Byte>, key: seq<Byte>)

  // ----- printing -----

  function PrintParams(p: Params): string {
    "m=" + Decimal.Print(p.memory) + ",t=" + Decimal.Print(p.iterations) + ",p=" + Decimal.Print(p.parallelism)
  }

  function PrintHash(d: Decoded): string {
    "$" + ("argon2id" + "$" + ("v=" + Decimal.Print(ARGON2_VERSION) + "$" + (PrintParams(d.params) + "$" +
    (Encode(RAW_STD_STRICT, d.salt) + "$" + Encode(RAW_STD_STRICT, d.key)))))
  }

  function CheckLength(password: string): Option<HashError> {
    if |password| < MIN_LENGTH then Some(TooShort) else if |password| > MAX_LENGTH then Some(TooLong) else None
  }

  function HashPassword(kdf: Kdf, password: string, wanted: Params, salt: seq<Byte>): Result<string, HashError> {
    var p := if wanted == ZERO then DEFAULT else wanted;
    if !Valid(p) then Err(BadParams)
    else if CheckLength(password).Some? then Err(CheckLength(password).value)
    else Ok(PrintHash(Decoded(p, salt, kdf(password, salt, p))))
  }

  // ----- parsing -----

  function Split(s: string): (parts: seq<string>)
    ensures |parts| > 0
  {
    if s == "" then [""]
    else if s[0] == '$' then [""] + Split(s[1..])
    else
      var rest := Split(s[1..]);
      [[s[0]] + rest[0]] + rest[1..]
  }

  /** The verb %d of fmt.Sscanf: skip blanks, then the longest run of digits. */
  function SkipBlanks(s: string): string {
    if s != "" && Keys.IsSpace(s[0]) && s[0] != '\n' then SkipBlanks(s[1..]) else s
  }

  function DigitRun(s: string): (n: nat)
    ensures n <= |s| && Decimal.AllDigits(s[..n])
  {
    if s != "" && Decimal.IsDigit(s[0]) then
      var n := DigitRun(s[1..]);
      assert forall i :: 0 < i < n + 1 ==> s[i] == s[1..][i - 1];
      1 + n
    else 0
  }

  function ScanUint(s: string, limit: nat): Option<(nat, string)> {
    var t := SkipBlanks(s);
    var n := DigitRun(t);
    if n == 0 || Decimal.Value(t[..n]) >= limit then None else Some((Decimal.Value(t[..n]), t[n..]))
  }

  /** A signed verb also takes a sign. */
  function ScanInt(s: string): Option<int> {
    var t := SkipBlanks(s);
    var signed := t != "" && (t[0] == '+' || t[0] == '-');
    var u := if signed then t[1..] else t;
    var n := DigitRun(u);
    if n == 0 then None
    else
      var magnitude: int := Decimal.Value(u[..n]);
      Some(if signed && t[0] == '-' then -magnitude else magnitude)
  }

  function ScanLiteral(s: string, literal: string): Option<string> {
    if literal <= s then Some(s[|literal|..]) else None
  }

  function ScanField(s: string, literal: string, limit: nat): Option<(nat, string)> {
    var rest := ScanLiteral(s, literal);
    if rest.None? then None else ScanUint(rest.value, limit)
  }

  function ScanVersion(s: string): Option<int> {
    var rest := ScanLiteral(s, "v=");
    if rest.None? then None else ScanInt(rest.value)
  }

  /** Sscanf "m=%d,t=%d,p=%d" into two uint32 and a uint8; what follows is ignored. */
  function ScanParams(s: string): Option<(nat, nat, nat)> {
    var m := ScanField(s, "m=", U32);
    if m.None? then None
    else
      var t := ScanField(m.value.1, ",t=", U32);
      if t.None? then None
      else
        var p := ScanField(t.value.1, ",p=", 256);
        if p.None? then None else Some((m.value.0, t.value.0, p.value.0))
  }

  function DecodeHash(encoded: string): Result<Decoded, HashError> {
    DecodeFields(Split(encoded))
  }

  function DecodeFields(parts: seq<string>): Result<Decoded, HashError> {
    if |parts| != 6 || parts[0] != "" || parts[1] != "argon2id" then Err(InvalidHash)
    else
      Assemble(ScanVersion(parts[2]), ScanParams(parts[3]),
               Decode(RAW_STD_STRICT, parts[4]), Decode(RAW_STD_STRICT, parts[5]))
  }

  /** The fields once scanned, checked in the order they are read. */
  function Assemble(version: Option<int>, cost: Option<(nat, nat, nat)>,
                    salt: Option<seq<Byte>>, key: Option<seq<Byte>>)
    : Result<Decoded, HashError>
  {
    if version.None? then Err(InvalidHash)
    else if version.value != ARGON2_VERSION then Err(IncompatibleVersion)
    else if cost.None? || salt.None? || key.None? then Err(InvalidHash)
    else
      var p := Params(cost.value.0, cost.value.1, cost.value.2, |salt.value| % U32, |key.value| % U32);
      if Valid(p) then Ok(Decoded(p, salt.value, key.value)) else Err(InvalidHash)
  }

  /** Whether the password matches, and whether the hash should be recomputed. */
  function VerifyPassword(kdf: Kdf, password: string, encoded: string): Result<(bool, bool), HashError> {
    var d := DecodeHash(encoded);
    if d.Err? then Err(d.error)
    else if kdf(password, d.value.salt, d.value.params) != d.value.key then Ok((false, false))
    else Ok((true, WeakerThan(d.value.params, DEFAULT)))
  }

  // ----- proofs -----

  predicate NoDollar(s: string) {
    forall i :: 0 <= i < |s| ==> s[i] != '$'
  }

  lemma {:induction false} SplitFirst(part: string, rest: string)
    requires NoDollar(part)
    ensures Split(part + "$" + rest) == [part] + Split(rest)
  {
    var s := part + "$" + rest;
    if part == "" {
      assert s[1..] == rest;
    } else {
      assert s[1..] == part[1..] + "$" + rest;
      SplitFirst(part[1..], rest);
      assert [part[0]] + part[1..] == part;
    }
  }

  lemma {:induction false} SplitLast(part: string)
    requires NoDollar(part)
    ensures Split(part) == [part]
  {
    if part != "" {
      SplitLast(part[1..]);
      assert [part[0]] + part[1..] == part;
    }
  }

  predicate EndsRun(rest: string) {
    rest == "" || !Decimal.IsDigit(rest[0])
  }

  lemma {:induction false} RunOfDigits(digits: string, rest: string)
    requires Decimal.AllDigits(digits) && EndsRun(rest)
    ensures DigitRun(digits + rest) == |digits|
  {
    if digits == "" {
      assert digits + rest == rest;
    } else {
      assert (digits + rest)[1..] == digits[1..] + rest;
      RunOfDigits(digits[1..], rest);
    }
  }

  lemma ScanPrinted(n: nat, rest: string, limit: nat)
    requires n < limit && EndsRun(rest)
    ensures ScanUint(Decimal.Print(n) + rest, limit) == Some((n, rest))
    ensures ScanInt(Decimal.Print(n) + rest) == Some(n as int)
  {
    var digits := Decimal.Print(n);
    var s := digits + rest;
    assert Decimal.IsDigit(digits[0]) && s[0] == digits[0];
    assert SkipBlanks(s) == s;
    RunOfDigits(digits, rest);
    Decimal.PrintValue(n);
    assert s[..|digits|] == digits && s[|digits|..] == rest;
  }

  lemma ScanPrintedField(literal: string, n: nat, rest: string, limit: nat)
    requires n < limit && EndsRun(rest)
    ensures ScanField(literal + (Decimal.Print(n) + rest), literal, limit) == Some((n, rest))
  {
    var s := literal + (Decimal.Print(n) + rest);
    assert s[|literal|..] == Decimal.Print(n) + rest;
    ScanPrinted(n, rest, limit);
  }

  lemma ParamsRoundTrip(p: Params)
    requires Fits(p)
    ensures ScanParams(PrintParams(p)) == Some((p.memory, p.iterations, p.parallelism))
  {
    var third := ",p=" + (Decimal.Print(p.parallelism) + "");
    var second := ",t=" + (Decimal.Print(p.iterations) + third);
    assert PrintParams(p) == "m=" + (Decimal.Print(p.memory) + second);
    ScanPrintedField("m=", p.memory, second, U32);
    ScanPrintedField(",t=", p.iterations, third, U32);
    ScanPrintedField(",p=", p.parallelism, "", 256);
  }

  lemma VersionRoundTrip()
    ensures ScanVersion("v=" + Decimal.Print(ARGON2_VERSION)) == Some(ARGON2_VERSION)
  {
    var s := "v=" + Decimal.Print(ARGON2_VERSION);
    assert s[2..] == Decimal.Print(ARGON2_VERSION) == Decimal.Print(ARGON2_VERSION) + "";
    ScanPrinted(ARGON2_VERSION, "", 20);
  }

  lemma DigitsHaveNoDollar(s: string)
    requires Decimal.AllDigits(s)
    ensures NoDollar(s)
  {
    assert forall i :: 0 <= i < |s| ==> Decimal.IsDigit(s[i]);
  }

  lemma ConcatHasNoDollar(a: string, b: string)
    requires NoDollar(a) && NoDollar(b)
    ensures NoDollar(a + b)
  {
  }

  lemma ParamsHaveNoDollar(p: Params)
    ensures NoDollar(PrintParams(p))
  {
    DigitsHaveNoDollar(Decimal.Print(p.memory));
    DigitsHaveNoDollar(Decimal.Print(p.iterations));
    DigitsHaveNoDollar(Decimal.Print(p.parallelism));
    ConcatHasNoDollar("m=", Decimal.Print(p.memory));
    ConcatHasNoDollar("m=" + Decimal.Print(p.memory), ",t=");
    ConcatHasNoDollar("m=" + Decimal.Print(p.memory) + ",t=", Decimal.Print(p.iterations));
    ConcatHasNoDollar("m=" + Decimal.Print(p.memory) + ",t=" + Decimal.Print(p.iterations), ",p=");
    ConcatHasNoDollar("m=" + Decimal.Print(p.memory) + ",t=" + Decimal.Print(p.iterations) + ",p=",
                      Decimal.Print(p.parallelism));
  }

  lemma Base64HasNoDollar(b: seq<Byte>)
    ensures NoDollar(Encode(RAW_STD_STRICT, b))
  {
    EncodeAlphabet(RAW_STD_STRICT, b);
    assert forall i :: 0 <= i < |Encode(RAW_STD_STRICT, b)| ==>
        EncodingChar(RAW_STD_STRICT, Encode(RAW_STD_STRICT, b)[i]);
  }

  lemma VersionIsPrinted()
    ensures "v=" + Decimal.Print(ARGON2_VERSION) == "v=19"
  {
    assert Decimal.Print(1) == "1";
    assert Decimal.Print(19) == Decimal.Print(1) + "9";
  }

  /** The printed hash splits into the six fields it was printed from. */
  lemma PrintedFields(d: Decoded)
    ensures Split(PrintHash(d)) ==
            ["", "argon2id", "v=" + Decimal.Print(ARGON2_VERSION), PrintParams(d.params),
             Encode(RAW_STD_STRICT, d.salt), Encode(RAW_STD_STRICT, d.key)]
  {
    var version, params := "v=" + Decimal.Print(ARGON2_VERSION), PrintParams(d.params);
    var salt, key := Encode(RAW_STD_STRICT, d.salt), Encode(RAW_STD_STRICT, d.key);
    DigitsHaveNoDollar(Decimal.Print(ARGON2_VERSION));
    ConcatHasNoDollar("v=", Decimal.Print(ARGON2_VERSION));
    ParamsHaveNoDollar(d.params);
    Base64HasNoDollar(d.salt);
    Base64HasNoDollar(d.key);
    SplitLast(key);
    SplitFirst(salt, key);
    SplitFirst(params, salt + "$" + key);
    SplitFirst(version, params + "$" + (salt + "$" + key));
    SplitFirst("argon2id", version + "$" + (params + "$" + (salt + "$" + key)));
    SplitFirst("", "argon2id" + "$" + (version + "$" + (params + "$" + (salt + "$" + key))));
    assert "" + "$" == "$";
  }

  /** When a password is not hashed, and why. */
  lemma HashRefuses(kdf: Kdf, password: string, wanted: Params, salt: seq<Byte>)
    ensures var p, r := if wanted == ZERO then DEFAULT else wanted, HashPassword(kdf, password, wanted, salt);
            var weak := p.memory == 0 || p.iterations == 0 || p.parallelism == 0
                        || p.saltLength < 8 || p.keyLength < 16;
            && (r == Err(BadParams) <==> weak)
            && (r == Err(TooShort) <==> !weak && |password| < 12)
            && (r == Err(TooLong) <==> !weak && |password| > 1024)
            && (r.Ok? <==> !weak && 12 <= |password| <= 1024)
    ensures DEFAULT.memory == 19456 && DEFAULT.iterations == 2 && DEFAULT.parallelism == 1
    ensures DEFAULT.saltLength == 16 && DEFAULT.keyLength == 32
  {
  }

  /** What the parser accepts: six fields between dollar signs, the first empty, Argon2id, version 19, and
      parameters that hashing would have accepted, with the lengths of the very salt and key it returns. */
  lemma DecodedIsWellFormed(encoded: string)
    ensures DecodeHash(encoded).Ok? ==>
              var d, parts := DecodeHash(encoded).value, Split(encoded);
              && |parts| == 6 && parts[0] == "" && parts[1] == "argon2id" && ScanVersion(parts[2]) == Some(19)
              && Decode(RAW_STD_STRICT, parts[4]) == Some(d.salt) && Decode(RAW_STD_STRICT, parts[5]) == Some(d.key)
              && ScanParams(parts[3]) == Some((d.params.memory, d.params.iterations, d.params.parallelism))
              && d.params.memory > 0 && d.params.iterations > 0 && d.params.parallelism > 0
              && 8 <= d.params.saltLength == |d.salt| % U32 && 16 <= d.params.keyLength == |d.key| % U32
    ensures DecodeHash(encoded) == Err(IncompatibleVersion) <==>
            var parts := Split(encoded);
            && |parts| == 6 && parts[0] == "" && parts[1] == "argon2id"
            && ScanVersion(parts[2]).Some? && ScanVersion(parts[2]) != Some(19)
  {
  }

  lemma AssembledAgain(d: Decoded)
    requires Fits(d.params) && Valid(d.params)
    requires |d.salt| == d.params.saltLength && |d.key| == d.params.keyLength
    ensures Assemble(Some(ARGON2_VERSION), Some((d.params.memory, d.params.iterations, d.params.parallelism)),
                     Some(d.salt), Some(d.key)) == Ok(d)
  {
  }

  /** Parsing undoes printing: parameters, salt and key all come back. */
  lemma HashRoundTrip(d: Decoded)
    requires Fits(d.params) && Valid(d.params)
    requires |d.salt| == d.params.saltLength && |d.key| == d.params.keyLength
    ensures DecodeHash(PrintHash(d)) == Ok(d)
  {
    var parts := Split(PrintHash(d));
    PrintedFields(d);
    assert ScanVersion(parts[2]) == Some(ARGON2_VERSION) by { VersionRoundTrip(); }
    assert ScanParams(parts[3]) == Some((d.params.memory, d.params.iterations, d.params.parallelism)) by {
      ParamsRoundTrip(d.params);
    }
    assert Decode(RAW_STD_STRICT, parts[4]) == Some(d.salt) by { RoundTrip(RAW_STD_STRICT, d.salt); }
    assert Decode(RAW_STD_STRICT, parts[5]) == Some(d.key) by { RoundTrip(RAW_STD_STRICT, d.key); }
    AssembledAgain(d);
  }

  /** The right password always verifies against its own hash, and asks for a rehash exactly when
      the parameters are weaker than the default; another password verifies only if the key
      derivation collides. */
  lemma RightPasswordVerifies(kdf: Kdf, password: string, wanted: Params, salt: seq<Byte>, other: string)
    requires IsKdf(kdf) && Fits(wanted)
    requires |salt| == (if wanted == ZERO then DEFAULT else wanted).saltLength
    requires HashPassword(kdf, password, wanted, salt).Ok?
    ensures var p := if wanted == ZERO then DEFAULT else wanted;
            var encoded := HashPassword(kdf, password, wanted, salt).value;
            && VerifyPassword(kdf, password, encoded)
               == Ok((true, p.memory < 19 * 1024 || p.iterations < 2 || p.keyLength < 32))
            && (VerifyPassword(kdf, other, encoded).Ok? && VerifyPassword(kdf, other, encoded).value.0
                <==> kdf(other, salt, p) == kdf(password, salt, p))
  {
    var p := if wanted == ZERO then DEFAULT else wanted;
    HashRoundTrip(Decoded(p, salt, kdf(password, salt, p)));
  }
}
