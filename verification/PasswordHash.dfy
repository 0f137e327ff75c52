/** Password hashes: the key derivation of section 5.2 of RFC 8018 and the text a hash is kept as. */
module PasswordHash {
  import opened Base64
  import opened Bytes
  import opened Text
  import opened Wrappers

  /** A pseudorandom function of a key and a message. */
  type Prf = (seq<byte>, seq<byte>) -> seq<byte>

  const HASH_LENGTH := 32

  ghost predicate Produces32(prf: Prf) {
    forall key, message :: |prf(key, message)| == 32
  }

  // ----- Section 5.2 of RFC 8018

  function XorAll(a: seq<byte>, b: seq<byte>): (x: seq<byte>)
    requires |a| == |b|
    ensures |x| == |a|
    ensures forall i :: 0 <= i < |a| ==> x[i] == Xor(a[i], b[i])
  {
    seq(|a|, i requires 0 <= i < |a| => Xor(a[i], b[i]))
  }

  /** Four bytes, most significant first, of a block number taken modulo 2^32. */
  function Int32(block: nat): seq<byte> {
    [(block / 0x100_0000 % 256) as byte, (block / 0x1_0000 % 256) as byte, (block / 0x100 % 256) as byte, (block % 256) as byte]
  }

  /** Read most significant first, the four bytes are the block number. */
  lemma Int32Means(block: nat)
    ensures |Int32(block)| == 4
    ensures var b := Int32(block);
            ((b[0] as int * 256 + b[1] as int) * 256 + b[2] as int) * 256 + b[3] as int == block % 0x1_0000_0000
  {
    DigitsAre(block);
    DigitsAre(block / 0x100);
    DigitsAre(block / 0x1_0000);
    DigitsAre(block / 0x100_0000);
  }

  lemma DigitsAre(x: nat)
    ensures x == x / 0x100 * 0x100 + x % 0x100
    ensures x / 0x100 / 0x100 == x / 0x1_0000 && x / 0x1_0000 / 0x100 == x / 0x100_0000
  {
  }

  /** U_c of block `i`. */
  function U(prf: Prf, password: seq<byte>, salt: seq<byte>, i: nat, c: nat): seq<byte>
    requires c > 0
  {
    if c == 1 then prf(password, salt + Int32(i)) else prf(password, U(prf, password, salt, i, c - 1))
  }

  /** U_1 xor ... xor U_c. */
  ghost function F(prf: Prf, password: seq<byte>, salt: seq<byte>, i: nat, c: nat): (t: seq<byte>)
    requires c > 0 && Produces32(prf)
    ensures |t| == HASH_LENGTH
  {
    if c == 1 then U(prf, password, salt, i, 1)
    else XorAll(F(prf, password, salt, i, c - 1), U(prf, password, salt, i, c))
  }

  /** T_1 || ... || T_l. */
  ghost function Blocks(prf: Prf, password: seq<byte>, salt: seq<byte>, c: nat, l: nat): (blocks: seq<byte>)
    requires c > 0 && Produces32(prf)
    ensures |blocks| == l * HASH_LENGTH
  {
    if l == 0 then [] else Blocks(prf, password, salt, c, l - 1) + F(prf, password, salt, l, c)
  }

  function BlockCount(keyLength: nat): (l: nat)
    ensures keyLength <= l * HASH_LENGTH < keyLength + HASH_LENGTH
  {
    (keyLength + HASH_LENGTH - 1) / HASH_LENGTH
  }

  function Rounds(iterations: int): (c: nat)
    ensures c > 0 && (iterations > 0 ==> c == iterations) && (iterations <= 0 ==> c == 1)
  {
    if iterations < 1 then 1 else iterations
  }

  /** The derived key: the first bytes of as many blocks as it takes. */
  ghost function DerivedKey(prf: Prf, password: seq<byte>, salt: seq<byte>, iterations: int, keyLength: nat): (key: seq<byte>)
    requires Produces32(prf)
    ensures |key| == keyLength
  {
    Blocks(prf, password, salt, Rounds(iterations), BlockCount(keyLength))[..keyLength]
  }

  // ----- The loops

  method XorInto(t: array<byte>, u: seq<byte>)
    requires t.Length == |u|
    modifies t
    ensures t[..] == XorAll(old(t[..]), u)
  {
    for j := 0 to t.Length
      invariant forall k :: 0 <= k < j ==> t[k] == Xor(old(t[k]), u[k])
      invariant forall k :: j <= k < t.Length ==> t[k] == old(t[k])
    {
      t[j] := Xor(t[j], u[j]);
    }
  }

  method DeriveBlock(prf: Prf, password: seq<byte>, salt: seq<byte>, iterations: int, block: nat) returns (derived: seq<byte>)
    requires Produces32(prf)
    ensures derived == F(prf, password, salt, block, Rounds(iterations))
  {
    var u := prf(password, salt + Int32(block));
    var t := new byte[|u|](i requires 0 <= i < |u| => u[i]);
    assert t[..] == u;
    for i := 1 to Rounds(iterations)
      invariant |u| == HASH_LENGTH && t.Length == HASH_LENGTH
      invariant u == U(prf, password, salt, block, i)
      invariant t[..] == F(prf, password, salt, block, i)
    {
      u := prf(password, u);
      XorInto(t, u);
    }
    return t[..];
  }

  method Pbkdf2Key(prf: Prf, password: seq<byte>, salt: seq<byte>, iterations: int, keyLength: nat) returns (key: seq<byte>)
    requires Produces32(prf)
    ensures key == DerivedKey(prf, password, salt, iterations, keyLength)
  {
    var numBlocks := (keyLength + HASH_LENGTH - 1) / HASH_LENGTH;
    var output: seq<byte> := [];
    for block := 1 to numBlocks + 1
      invariant output == Blocks(prf, password, salt, Rounds(iterations), block - 1)
    {
      var t := DeriveBlock(prf, password, salt, iterations, block);
      output := output + t;
    }
    assert numBlocks == BlockCount(keyLength);
    return output[..keyLength];
  }

  /** A longer key begins with every shorter one. */
  lemma {:induction false} BlocksArePrefixes(prf: Prf, password: seq<byte>, salt: seq<byte>, c: nat, m: nat, n: nat)
    requires c > 0 && Produces32(prf) && m <= n
    ensures Blocks(prf, password, salt, c, m) <= Blocks(prf, password, salt, c, n)
    decreases n
  {
    if m < n {
      BlocksArePrefixes(prf, password, salt, c, m, n - 1);
    }
  }

  // ----- Numbers as text

  function Digit(d: int): char
    requires 0 <= d < 10
  {
    '0' + d as char
  }

  function Decimal(n: nat): (text: string)
    ensures text != ""
  {
    if n < 10 then [Digit(n)] else Decimal(n / 10) + [Digit(n % 10)]
  }

  const TWO_TO_THE_63 := 0x8000_0000_0000_0000

  /** Arithmetic on 64-bit integers wraps around. */
  function Wrap(x: int): int {
    (x + TWO_TO_THE_63) % (2 * TWO_TO_THE_63) - TWO_TO_THE_63
  }

  /** A wrapped number fits 64 bits and differs from the number by a multiple of 2^64. */
  lemma WrapMeans(x: int) returns (k: int)
    ensures -0x8000_0000_0000_0000 <= Wrap(x) < 0x8000_0000_0000_0000
    ensures x == Wrap(x) + k * 0x1_0000_0000_0000_0000
  {
    k := (x + TWO_TO_THE_63) / (2 * TWO_TO_THE_63);
  }

  /** The number the first `n` characters spell, if they are digits; no characters spell zero. */
  function Spelled(text: string, n: nat): Option<int>
    requires n <= |text|
  {
    if n == 0 then Some(0)
    else
      var earlier := Spelled(text, n - 1);
      if earlier.None? || text[n - 1] < '0' || text[n - 1] > '9' then None
      else Some(Wrap(earlier.value * 10 + (text[n - 1] - '0') as int))
  }

  method Atoi(text: string) returns (result: Option<int>)
    ensures result == Spelled(text, |text|)
  {
    var value := 0;
    for n := 0 to |text|
      invariant Spelled(text, n) == Some(value)
    {
      if text[n] < '0' || text[n] > '9' {
        NotANumber(text, n, |text|);
        return None;
      }
      value := Wrap(value * 10 + (text[n] - '0') as int);
    }
    return Some(value);
  }

  lemma {:induction false} NotANumber(text: string, i: nat, n: nat)
    requires i < n <= |text| && (text[i] < '0' || text[i] > '9')
    ensures Spelled(text, n) == None
  {
    hide Wrap;
    if i < n - 1 {
      NotANumber(text, i, n - 1);
    }
  }

  lemma {:induction false} SpelledPrefix(a: string, b: string, n: nat)
    requires n <= |a|
    ensures Spelled(a + b, n) == Spelled(a, n)
  {
    hide Wrap;
    if n > 0 {
      SpelledPrefix(a, b, n - 1);
    }
  }

  lemma InRange(x: int)
    requires 0 <= x < TWO_TO_THE_63
    ensures Wrap(x) == x
  {
  }

  /** Printing and reading back a number in the range of 64-bit integers gives it again. */
  lemma {:induction false} DecimalRoundTrip(n: nat)
    requires n < TWO_TO_THE_63
    ensures Spelled(Decimal(n), |Decimal(n)|) == Some(n)
    ensures forall i :: 0 <= i < |Decimal(n)| ==> Decimal(n)[i] != '$'
  {
    InRange(n);
    hide Wrap;
    if n < 10 {
      assert Spelled(Decimal(n), 0) == Some(0);
    } else {
      var front := Decimal(n / 10);
      DecimalRoundTrip(n / 10);
      SpelledPrefix(front, [Digit(n % 10)], |front|);
      assert Decimal(n) == front + [Digit(n % 10)];
      assert n == n / 10 * 10 + n % 10;
    }
  }

  // ----- The text of a hash

  /** The parts of a text between dollar signs. */
  function Split(text: string): (parts: seq<string>)
    ensures |parts| > 0
  {
    if text == "" then [""]
    else
      var rest := Split(text[1..]);
      if text[0] == '$' then [""] + rest else [[text[0]] + rest[0]] + rest[1..]
  }

  lemma {:induction false} SplitAtDollar(part: string, rest: string)
    requires '$' !in part
    ensures Split(part + "$" + rest) == [part] + Split(rest)
    ensures Split(part) == [part]
  {
    if part == "" {
      assert part + "$" + rest == "$" + rest;
      assert ("$" + rest)[1..] == rest;
    } else {
      SplitAtDollar(part[1..], rest);
      assert (part + "$" + rest)[1..] == part[1..] + "$" + rest;
      assert [part[0]] + part[1..] == part;
    }
  }

  const SCHEME := "pbkdf2_sha256"

  function Formatted(iterations: int, salt: seq<byte>, hash: seq<byte>): string {
    SCHEME + "$" + (Printed(iterations) + "$" + (Encode(salt) + "$" + Encode(hash)))
  }

  function Printed(n: int): string {
    if n < 0 then "-" + Decimal(-n) else Decimal(n)
  }

  /** The salt is random in the source. */
  method HashPassword(prf: Prf, password: seq<byte>, salt: seq<byte>, iterations: int) returns (encoded: string)
    requires Produces32(prf)
    ensures encoded == Formatted(iterations, salt, DerivedKey(prf, password, salt, iterations, HASH_LENGTH))
  {
    var hash := Pbkdf2Key(prf, password, salt, iterations, HASH_LENGTH);
    return Formatted(iterations, salt, hash);
  }

  /** What is needed for a password to match an encoded hash. */
  ghost predicate Verifies(prf: Prf, password: seq<byte>, encoded: string)
    requires Produces32(prf)
  {
    var parts := Split(encoded);
    && |parts| == 4 && parts[0] == SCHEME
    && (var iterations, salt, expected := Spelled(parts[1], |parts[1]|), Decode(parts[2]), Decode(parts[3]);
        && iterations.Some? && iterations.value > 0 && salt.Some? && expected.Some?
        && expected.value == DerivedKey(prf, password, salt.value, iterations.value, |expected.value|))
  }

  method VerifyPassword(prf: Prf, password: seq<byte>, encoded: string) returns (ok: bool)
    requires Produces32(prf)
    ensures ok <==> Verifies(prf, password, encoded)
  {
    var parts := Split(encoded);
    if |parts| != 4 || parts[0] != SCHEME {
      return false;
    }
    var iterations := Atoi(parts[1]);
    if iterations.None? || iterations.value <= 0 {
      return false;
    }
    var salt := Decode(parts[2]);
    if salt.None? {
      return false;
    }
    var expected := Decode(parts[3]);
    if expected.None? {
      return false;
    }
    var actual := Pbkdf2Key(prf, password, salt.value, iterations.value, |expected.value|);
    return actual == expected.value;
  }

  lemma FourParts(a: string, b: string, c: string, d: string)
    requires '$' !in a && '$' !in b && '$' !in c && '$' !in d
    ensures Split(a + "$" + (b + "$" + (c + "$" + d))) == [a, b, c, d]
  {
    hide Split;
    SplitAtDollar(a, b + "$" + (c + "$" + d));
    SplitAtDollar(b, c + "$" + d);
    SplitAtDollar(c, d);
    SplitAtDollar(d, "");
    assert [a] + ([b] + ([c] + [d])) == [a, b, c, d];
  }

  lemma FormattedSplits(iterations: nat, salt: seq<byte>, hash: seq<byte>)
    requires iterations < TWO_TO_THE_63
    ensures Split(Formatted(iterations, salt, hash)) == ["pbkdf2_sha256", Decimal(iterations), Encode(salt), Encode(hash)]
  {
    EncodingIsClean(salt);
    EncodingIsClean(hash);
    DecimalRoundTrip(iterations);
    hide Encode;
    hide Decimal;
    hide Split;
    FourParts(SCHEME, Decimal(iterations), Encode(salt), Encode(hash));
  }

  /** A password matches the hash of another exactly when both derive the same key: through
      printing and reading the count, base64 and the dollar signs nothing else matters. */
  lemma VerifyAfterHash(prf: Prf, hashed: seq<byte>, tried: seq<byte>, salt: seq<byte>, iterations: int)
    requires Produces32(prf) && 0 < iterations < TWO_TO_THE_63
    ensures Verifies(prf, tried, Formatted(iterations, salt, DerivedKey(prf, hashed, salt, iterations, HASH_LENGTH))) <==>
            DerivedKey(prf, tried, salt, iterations, HASH_LENGTH) == DerivedKey(prf, hashed, salt, iterations, HASH_LENGTH)
  {
    var hash := DerivedKey(prf, hashed, salt, iterations, HASH_LENGTH);
    FormattedSplits(iterations, salt, hash);
    DecimalRoundTrip(iterations);
    RoundTrip(salt);
    RoundTrip(hash);
    hide Split;
    hide Decimal;
    hide Encode;
    hide Decode;
    hide Spelled;
    hide DerivedKey;
    hide Formatted;
  }

  /** Registration trims the password and logging in does not: the same text logs in exactly when
      it derives the key of its trimmed form, which it does when trimming changes nothing. */
  lemma RegisterThenLogin(prf: Prf, bytes: string -> seq<byte>, password: string, salt: seq<byte>, iterations: int)
    requires Produces32(prf) && 0 < iterations < TWO_TO_THE_63
    ensures var stored := Formatted(iterations, salt, DerivedKey(prf, bytes(Trim(password)), salt, iterations, HASH_LENGTH));
            && (Trim(password) == password ==> Verifies(prf, bytes(password), stored))
            && (Verifies(prf, bytes(password), stored) <==>
                DerivedKey(prf, bytes(password), salt, iterations, HASH_LENGTH) == DerivedKey(prf, bytes(Trim(password)), salt, iterations, HASH_LENGTH))
  {
    VerifyAfterHash(prf, bytes(Trim(password)), bytes(password), salt, iterations);
    hide *;
  }
}
