/** The layout of a personal access token: `pat_<base64 of two UUIDs>_<random part>`.
    Base64 is the standard encoding of section 4 of RFC 4648. */
module PatSecret {
  import opened Common
  import opened Text

  type Byte = b: int | 0 <= b < 256
  type Sextet = b: int | 0 <= b < 64
  type Uuid = u: seq<Byte> | |u| == 16 witness [0, 0, 0, 0, 0, 0, 0, 0, 0, 0, 0, 0, 0, 0, 0, 0]

  // ----- base64

  const PAD := '='

  function Symbol(x: Sextet): char {
    if x < 26 then ('A' as int + x) as char
    else if x < 52 then ('a' as int + x - 26) as char
    else if x < 62 then ('0' as int + x - 52) as char
    else if x == 62 then '+' else '/'
  }

  function Value(c: char): Option<Sextet> {
    if 'A' <= c <= 'Z' then Some(c as int - 'A' as int)
    else if 'a' <= c <= 'z' then Some(c as int - 'a' as int + 26)
    else if '0' <= c <= '9' then Some(c as int - '0' as int + 52)
    else if c == '+' then Some(62)
    else if c == '/' then Some(63)
    else None
  }

  /** The alphabet of table 1 in section 4 of RFC 4648. */
  lemma SymbolIsInTable(x: Sextet)
    ensures Symbol(0) == 'A' && Symbol(25) == 'Z' && Symbol(26) == 'a' && Symbol(51) == 'z'
    ensures Symbol(52) == '0' && Symbol(61) == '9' && Symbol(62) == '+' && Symbol(63) == '/'
    ensures x != 25 && x != 51 && x < 61 ==> Symbol(x + 1) as int == Symbol(x) as int + 1
  {}

  lemma ValueOfSymbol(x: Sextet)
    ensures Value(Symbol(x)) == Some(x)
    ensures Symbol(x) != PAD && Symbol(x) != '_' && Symbol(x) != '\n' && Symbol(x) != '\r'
  {}

  /** Three bytes as four symbols. */
  function FullGroup(a: Byte, b: Byte, c: Byte): string {
    [Symbol(a / 4), Symbol(a % 4 * 16 + b / 16), Symbol(b % 16 * 4 + c / 64), Symbol(c % 64)]
  }

  function EncodeToString(data: seq<Byte>): string {
    if data == [] then ""
    else if |data| == 1 then
      [Symbol(data[0] / 4), Symbol(data[0] % 4 * 16), PAD, PAD]
    else if |data| == 2 then
      [Symbol(data[0] / 4), Symbol(data[0] % 4 * 16 + data[1] / 16), Symbol(data[1] % 16 * 4), PAD]
    else
      FullGroup(data[0], data[1], data[2])
      + EncodeToString(data[3..])
  }

  /** The sextets of a full group are the bits of its bytes, most significant first. */
  lemma {:induction false} GroupBits(a: Byte, b: Byte, c: Byte, v: seq<Sextet>)
    requires |v| == 4 && FullGroup(a, b, c) == [Symbol(v[0]), Symbol(v[1]), Symbol(v[2]), Symbol(v[3])]
    ensures (v[0] as int) * 262144 + (v[1] as int) * 4096 + (v[2] as int) * 64 + (v[3] as int)
         == (a as int) * 65536 + (b as int) * 256 + (c as int)
  {
    forall k | 0 <= k < 4 ensures Value(FullGroup(a, b, c)[k]) == Some(v[k]) {
      ValueOfSymbol(v[k]);
    }
    ValueOfSymbol(a / 4);
    ValueOfSymbol(a % 4 * 16 + b / 16);
    ValueOfSymbol(b % 16 * 4 + c / 64);
    ValueOfSymbol(c % 64);
  }

  /** Three bytes make a group of four symbols; one or two bytes left over make the group that
      zero bytes in their place would, with `=` for each missing byte. */
  lemma {:induction false} EncodeGroups(a: Byte, b: Byte, c: Byte, rest: seq<Byte>)
    ensures EncodeToString([a, b, c] + rest) == FullGroup(a, b, c) + EncodeToString(rest)
    ensures EncodeToString([a, b]) == FullGroup(a, b, 0)[..3] + "="
    ensures EncodeToString([a]) == FullGroup(a, 0, 0)[..2] + "=="
    ensures EncodeToString([]) == ""
  {
    assert ([a, b, c] + rest)[3..] == rest;
  }

  /** The decoder skips line breaks. */
  function WithoutBreaks(s: string): string {
    if s == "" then ""
    else (if s[0] == '\n' || s[0] == '\r' then "" else [s[0]]) + WithoutBreaks(s[1..])
  }

  /** Padding may close the last group only; the bits it leaves unused are not checked. */
  function DecodeGroups(s: string): Option<seq<Byte>> {
    if s == "" then Some([])
    else if |s| < 4 then None
    else
      var a, b, c, d := Value(s[0]), Value(s[1]), Value(s[2]), Value(s[3]);
      if a.None? || b.None? then None
      else if s[3] == PAD then
        if |s| > 4 then None
        else if s[2] == PAD then Some([a.value * 4 + b.value / 16])
        else if c.None? then None
        else Some([a.value * 4 + b.value / 16, b.value % 16 * 16 + c.value / 4])
      else if c.None? || d.None? then None
      else
        var rest := DecodeGroups(s[4..]);
        if rest.None? then None
        else
          var bytes := [a.value * 4 + b.value / 16, b.value % 16 * 16 + c.value / 4, c.value % 4 * 64 + d.value];
          Some(bytes + rest.value)
  }

  function DecodeString(s: string): Option<seq<Byte>> {
    DecodeGroups(WithoutBreaks(s))
  }

  predicate Base64Text(s: string) {
    forall c | c in s :: c == PAD || Value(c).Some?
  }

  lemma {:induction false} EncodedIsBase64Text(data: seq<Byte>)
    ensures Base64Text(EncodeToString(data))
  {
    if |data| > 2 {
      EncodedIsBase64Text(data[3..]);
    }
  }

  lemma {:induction false} BreaksKeepBase64Text(s: string)
    requires Base64Text(s)
    ensures WithoutBreaks(s) == s
  {
    if s != "" {
      assert Base64Text(s[1..]);
      BreaksKeepBase64Text(s[1..]);
      assert s[0] in s;
    }
  }

  /** The bits of three bytes, cut into four sextets, come back together. */
  lemma Repack(a: Byte, b: Byte, c: Byte)
    ensures (a / 4) * 4 + (a % 4 * 16 + b / 16) / 16 == a
    ensures (a % 4 * 16 + b / 16) % 16 * 16 + (b % 16 * 4 + c / 64) / 4 == b
    ensures (b % 16 * 4 + c / 64) % 4 * 64 + c % 64 == c
  {}

  lemma {:induction false} DecodeFullGroup(a: Byte, b: Byte, c: Byte, rest: string)
    requires DecodeGroups(rest).Some?
    ensures DecodeGroups(FullGroup(a, b, c) + rest)
         == Some([a, b, c] + DecodeGroups(rest).value)
  {
    var group := FullGroup(a, b, c);
    ValueOfSymbol(a / 4);
    ValueOfSymbol(a % 4 * 16 + b / 16);
    ValueOfSymbol(b % 16 * 4 + c / 64);
    ValueOfSymbol(c % 64);
    Repack(a, b, c);
    assert (group + rest)[4..] == rest;
  }

  lemma {:induction false} DecodeLastGroup(a: Byte, b: Byte)
    ensures DecodeGroups(EncodeToString([a])) == Some([a])
    ensures DecodeGroups(EncodeToString([a, b])) == Some([a, b])
  {
    ValueOfSymbol(a / 4);
    ValueOfSymbol(a % 4 * 16);
    ValueOfSymbol(a % 4 * 16 + b / 16);
    ValueOfSymbol(b % 16 * 4);
    Repack(a, b, 0);
  }

  lemma {:induction false} DecodeGroupsOfEncode(data: seq<Byte>)
    ensures DecodeGroups(EncodeToString(data)) == Some(data)
  {
    if 1 <= |data| <= 2 {
      DecodeLastGroup(data[0], data[|data| - 1]);
      assert data == if |data| == 1 then [data[0]] else [data[0], data[1]];
    } else if |data| > 2 {
      DecodeGroupsOfEncode(data[3..]);
      DecodeFullGroup(data[0], data[1], data[2], EncodeToString(data[3..]));
      assert data == [data[0], data[1], data[2]] + data[3..];
    }
  }

  /** Decoding undoes encoding, for byte strings of every length. */
  lemma {:induction false} DecodeOfEncode(data: seq<Byte>)
    ensures DecodeString(EncodeToString(data)) == Some(data)
  {
    EncodedIsBase64Text(data);
    BreaksKeepBase64Text(EncodeToString(data));
    DecodeGroupsOfEncode(data);
  }

  // ----- the two identifiers

  function EncodeIds(user: Uuid, pat: Uuid): string {
    EncodeToString(user + pat)
  }

  function DecodeIds(encoded: string): Option<(Uuid, Uuid)> {
    var data := DecodeString(encoded);
    if data.None? || |data.value| != 32 then None
    else Some((data.value[..16], data.value[16..]))
  }

  // ----- the random part

  const RAND_STR := "abcdefghijklmnopqrstuvwxyz" + "ABCDEFGHIJKLMNOPQRSTUVWXYZ" + "1234567890" + "!@#$%^&&*|+-="
  const RANDOM_LENGTH := 100

  predicate RandomPart(s: string) {
    |s| == RANDOM_LENGTH && forall c | c in s :: c in RAND_STR
  }

  /** `generateRandomString`; the bytes are what the system's random source returned. */
  method GenerateRandomString(n: nat, randBytes: seq<Byte>) returns (s: string)
    requires |randBytes| == n
    ensures |s| == n
    ensures forall i | 0 <= i < n :: s[i] == RAND_STR[randBytes[i] % |RAND_STR|]
    ensures n == RANDOM_LENGTH ==> RandomPart(s)
  {
    var b := new char[n];
    for i := 0 to n
      invariant forall k | 0 <= k < i :: b[k] == RAND_STR[randBytes[k] % |RAND_STR|]
    {
      b[i] := RAND_STR[randBytes[i] % |RAND_STR|];
    }
    s := b[..];
  }

  // ----- the secret

  const SEPARATOR := '_'
  const PREFIX := "pat"

  function Secret(user: Uuid, pat: Uuid, randomPart: string): string {
    PREFIX + "_" + EncodeIds(user, pat) + "_" + randomPart
  }

  /** How a presented secret is read: refused, the identifiers it names, or an index out of
      range, since the shape check joins its two conditions with "and". */
  datatype Reading = Malformed | OutOfRange | Ids(user: Uuid, pat: Uuid)

  function ReadSecret(secret: string): Reading {
    var parts := Split(secret, SEPARATOR);
    if |parts| != 3 && parts[0] != PREFIX then Malformed
    else if |parts| < 2 then OutOfRange
    else
      var ids := DecodeIds(parts[1]);
      if ids.None? then Malformed else Ids(ids.value.0, ids.value.1)
  }

  lemma RandomHasNoSeparator()
    ensures SEPARATOR !in RAND_STR
  {}

  /** Neither the base64 alphabet nor the alphabet of the random part holds the separator. */
  lemma {:induction false} NoSeparator(user: Uuid, pat: Uuid, randomPart: string)
    requires RandomPart(randomPart)
    ensures SEPARATOR !in EncodeIds(user, pat) && SEPARATOR !in randomPart
  {
    EncodedIsBase64Text(user + pat);
    RandomHasNoSeparator();
  }

  /** An issued secret splits into exactly its three parts. */
  lemma {:induction false} SecretSplits(user: Uuid, pat: Uuid, randomPart: string)
    requires RandomPart(randomPart)
    ensures Split(Secret(user, pat, randomPart), '_') == ["pat", EncodeToString(user + pat), randomPart]
  {
    var parts := [PREFIX, EncodeIds(user, pat), randomPart];
    NoSeparator(user, pat, randomPart);
    JoinThree(PREFIX, EncodeIds(user, pat), randomPart, SEPARATOR);
    assert Join(parts, SEPARATOR) == Secret(user, pat, randomPart);
    SplitOfJoin(parts, SEPARATOR);
  }

  /** Reading an issued secret returns the two identifiers it was built from. */
  lemma {:induction false} SecretRoundTrip(user: Uuid, pat: Uuid, randomPart: string)
    requires RandomPart(randomPart)
    ensures ReadSecret(Secret(user, pat, randomPart)) == Ids(user, pat)
  {
    SecretSplits(user, pat, randomPart);
    DecodeOfEncode(user + pat);
    assert (user + pat)[..16] == user && (user + pat)[16..] == pat;
  }

  /** The secret determines everything it was built from. */
  lemma {:induction false} SecretInjective(user: Uuid, pat: Uuid, randomPart: string, user': Uuid, pat': Uuid,
                                           randomPart': string)
    requires RandomPart(randomPart) && RandomPart(randomPart')
    requires Secret(user, pat, randomPart) == Secret(user', pat', randomPart')
    ensures user == user' && pat == pat' && randomPart == randomPart'
  {
    SecretSplits(user, pat, randomPart);
    SecretSplits(user', pat', randomPart');
    SecretRoundTrip(user, pat, randomPart);
    SecretRoundTrip(user', pat', randomPart');
  }

  /** One presented string falls through the shape check: the bare prefix. */
  lemma {:induction false} OnlyBarePrefixFallsThrough(secret: string)
    ensures ReadSecret(secret) == OutOfRange <==> secret == PREFIX
  {
    JoinOfSplit(secret, SEPARATOR);
    SplitHead(PREFIX, "", SEPARATOR);
  }
}
