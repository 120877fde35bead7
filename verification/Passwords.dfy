/** Password hashes as text: `$argon2id$v=19$m=…,t=…,p=…$salt$key`, with salt and key in
    unpadded base64 (RFC 4648, sections 3.2 and 4), and the reader that verification uses. */
module Passwords {
  import opened Wrappers
  import opened Bytes
  import opened Text

  const LIMIT32: int := 0x1_0000_0000

  datatype Config = Config(memory: nat, iterations: nat, parallelism: nat, saltLength: nat, keyLength: nat)

  const DEFAULT_CONFIG := Config(64 * 1024, 3, 2, 16, 32)

  /** The widths of the fields: 32 bits, and 8 for the parallelism. */
  predicate Fits(c: Config) {
    c.memory < LIMIT32 && c.iterations < LIMIT32 && c.parallelism < 256 && c.saltLength < LIMIT32 &&
      c.keyLength < LIMIT32
  }

  /******* Base64 *******/

  type Sextet = n: int | 0 <= n < 64 witness 0

  function Symbol(n: Sextet): char {
    if n < 26 then 'A' + n as char
    else if n < 52 then 'a' + (n - 26) as char
    else if n < 62 then '0' + (n - 52) as char
    else if n == 62 then '+' else '/'
  }

  function SextetOf(c: char): Option<Sextet> {
    if IsUpper(c) then Some(c as int - 'A' as int)
    else if IsLower(c) then Some(c as int - 'a' as int + 26)
    else if IsDigit(c) then Some(c as int - '0' as int + 52)
    else if c == '+' then Some(62) else if c == '/' then Some(63) else None
  }

  lemma SymbolReads(n: Sextet)
    ensures SextetOf(Symbol(n)) == Some(n)
  {}

  /** Three bytes are four sextets; a last byte is two, two last bytes are three. */
  function Encode(b: seq<byte>): string {
    if b == [] then ""
    else
      var x := b[0] as int;
      if |b| == 1 then [Symbol(x / 4), Symbol(x % 4 * 16)]
      else
        var y := b[1] as int;
        if |b| == 2 then [Symbol(x / 4), Symbol(x % 4 * 16 + y / 16), Symbol(y % 16 * 4)]
        else
          var z := b[2] as int;
          [Symbol(x / 4), Symbol(x % 4 * 16 + y / 16), Symbol(y % 16 * 4 + z / 64), Symbol(z % 64)] + Encode(b[3..])
  }

  /** The decoder passes over line breaks, and ignores the unused low bits of a last symbol. */
  function Decode(s: string): Option<seq<byte>> { Decoded(Unbroken(s)) }

  function Unbroken(s: string): string {
    if s == "" then "" else (if s[0] == '\r' || s[0] == '\n' then "" else [s[0]]) + Unbroken(s[1..])
  }

  function Decoded(s: string): Option<seq<byte>> {
    if s == "" then Some([])
    else if |s| == 1 || SextetOf(s[0]).None? || SextetOf(s[1]).None? then None
    else
      var (a, b) := (SextetOf(s[0]).value, SextetOf(s[1]).value);
      var x := (a * 4 + b / 16) as byte;
      if |s| == 2 then Some([x])
      else if SextetOf(s[2]).None? then None
      else
        var c := SextetOf(s[2]).value;
        var y := (b % 16 * 16 + c / 4) as byte;
        if |s| == 3 then Some([x, y])
        else if SextetOf(s[3]).None? then None
        else
          var z := (c % 4 * 64 + SextetOf(s[3]).value) as byte;
          match Decoded(s[4..])
          case None => None
          case Some(rest) => Some([x, y, z] + rest)
  }

  /** A symbol is neither a line break nor one of the hash text's separators. */
  predicate Clean(s: string) { forall i :: 0 <= i < |s| ==> SextetOf(s[i]).Some? }

  lemma {:induction false} EncodeClean(b: seq<byte>)
    ensures Clean(Encode(b))
  {
    if |b| > 2 { EncodeClean(b[3..]); }
  }

  lemma {:induction false} UnbrokenClean(s: string)
    requires Clean(s)
    ensures Unbroken(s) == s
  {
    if s != "" {
      UnbrokenClean(s[1..]);
      FirstAndRest(s);
    }
  }

  lemma Regroup(x: int, y: int, z: int)
    requires 0 <= x < 256 && 0 <= y < 256 && 0 <= z < 256
    ensures x / 4 * 4 + (x % 4 * 16 + y / 16) / 16 == x
    ensures (x % 4 * 16 + y / 16) % 16 * 16 + (y % 16 * 4 + z / 64) / 4 == y
    ensures (y % 16 * 4 + z / 64) % 4 * 64 + z % 64 == z
  {}

  lemma DecodeFour(a: Sextet, b: Sextet, c: Sextet, d: Sextet, tail: string, rest: seq<byte>)
    requires Decoded(tail) == Some(rest)
    ensures Decoded([Symbol(a), Symbol(b), Symbol(c), Symbol(d)] + tail)
         == Some([(a * 4 + b / 16) as byte, (b % 16 * 16 + c / 4) as byte, (c % 4 * 64 + d) as byte] + rest)
  {
    hide Symbol, SextetOf;
    SymbolReads(a);
    SymbolReads(b);
    SymbolReads(c);
    SymbolReads(d);
    var s := [Symbol(a), Symbol(b), Symbol(c), Symbol(d)] + tail;
    assert s[4..] == tail;
  }

  lemma DecodeTwo(a: Sextet, b: Sextet)
    ensures Decoded([Symbol(a), Symbol(b)]) == Some([(a * 4 + b / 16) as byte])
  {
    hide Symbol, SextetOf;
    SymbolReads(a);
    SymbolReads(b);
  }

  lemma DecodeThree(a: Sextet, b: Sextet, c: Sextet)
    ensures Decoded([Symbol(a), Symbol(b), Symbol(c)]) ==
      Some([(a * 4 + b / 16) as byte, (b % 16 * 16 + c / 4) as byte])
  {
    hide Symbol, SextetOf;
    SymbolReads(a);
    SymbolReads(b);
    SymbolReads(c);
  }

  lemma {:induction false} EncodeDecodes(b: seq<byte>)
    ensures Decoded(Encode(b)) == Some(b)
  {
    hide Symbol, SextetOf, Decoded;
    if b == [] {
      assert Decoded("") == Some([]) by { DecodeNothing(); }
    } else {
      var x := b[0] as int;
      if |b| == 1 {
        Regroup(x, 0, 0);
        DecodeTwo(x / 4, x % 4 * 16);
        assert b == [b[0]];
      } else {
        var y := b[1] as int;
        if |b| == 2 {
          Regroup(x, y, 0);
          DecodeThree(x / 4, x % 4 * 16 + y / 16, y % 16 * 4);
          assert b == [b[0], b[1]];
        } else {
          var z := b[2] as int;
          Regroup(x, y, z);
          EncodeDecodes(b[3..]);
          DecodeFour(x / 4, x % 4 * 16 + y / 16, y % 16 * 4 + z / 64, z % 64, Encode(b[3..]), b[3..]);
          assert b == [b[0], b[1], b[2]] + b[3..];
        }
      }
    }
  }

  lemma DecodeNothing()
    ensures Decoded("") == Some([])
  {}

  /** Encoding then decoding gives the bytes back. */
  lemma Base64RoundTrip(b: seq<byte>)
    ensures Decode(Encode(b)) == Some(b)
  {
    EncodeClean(b);
    UnbrokenClean(Encode(b));
    EncodeDecodes(b);
  }

  /** The alphabet: A to Z, a to z, 0 to 9, and then `+` and `/`. */
  lemma AlphabetExactly(n: Sextet)
    ensures Symbol(0) == 'A' && Symbol(25) == 'Z' && Symbol(26) == 'a' && Symbol(51) == 'z'
    ensures Symbol(52) == '0' && Symbol(61) == '9' && Symbol(62) == '+' && Symbol(63) == '/'
    ensures n !in {25, 51, 61, 62, 63} ==> Symbol(n + 1) as int == Symbol(n) as int + 1
  {}

  lemma Digits64(x: int, y: int, z: int)
    requires 0 <= x < 256 && 0 <= y < 256 && 0 <= z < 256
    ensures var n := x * 65536 + y * 256 + z;
      && n / 262144 == x / 4 && n / 4096 % 64 == x % 4 * 16 + y / 16
      && n / 64 % 64 == y % 16 * 4 + z / 64 && n % 64 == z % 64
  {
    var n := x * 65536 + y * 256 + z;
    assert n / 64 == x * 1024 + y * 4 + z / 64;
    assert n / 4096 == x * 16 + y / 16;
  }

  /** The text of bytes, as RFC 4648 has it: three bytes are a number of 24 bits and four digits of base 64,
      the highest first. */
  lemma EncodeThree(x: byte, y: byte, z: byte, rest: seq<byte>)
    ensures var n := x as int * 65536 + y as int * 256 + z as int;
      0 <= n < 262144 * 64 &&
      Encode([x, y, z] + rest) ==
        [Symbol(n / 262144), Symbol(n / 4096 % 64), Symbol(n / 64 % 64), Symbol(n % 64)] + Encode(rest)
  {
    hide Symbol;
    var b := [x, y, z] + rest;
    assert b[3..] == rest;
    Digits64(x as int, y as int, z as int);
  }

  /** One or two bytes at the end give the first two or three digits. */
  lemma EncodeOne(x: byte)
    ensures var n := x as int * 65536;
      0 <= n < 262144 * 64 && Encode([x]) == [Symbol(n / 262144), Symbol(n / 4096 % 64)]
  {
    hide Symbol;
    Digits64(x as int, 0, 0);
  }

  lemma EncodeTwo(x: byte, y: byte)
    ensures var n := x as int * 65536 + y as int * 256;
      0 <= n < 262144 * 64 && Encode([x, y]) == [Symbol(n / 262144), Symbol(n / 4096 % 64), Symbol(n / 64 % 64)]
  {
    hide Symbol;
    Digits64(x as int, y as int, 0);
  }

  predicate IsSymbol64(c: char) { 'A' <= c <= 'Z' || 'a' <= c <= 'z' || '0' <= c <= '9' || c == '+' || c == '/' }

  /** What decodes: symbols of the alphabet, line breaks apart, and never a single one left over. */
  lemma {:induction false} DecodedExactly(s: string)
    ensures Decoded(s).Some? <==> |s| % 4 != 1 && forall i :: 0 <= i < |s| ==> IsSymbol64(s[i])
  {
    if |s| > 3 {
      DecodedExactly(s[4..]);
      assert forall i :: 4 <= i < |s| ==> s[i] == s[4..][i - 4];
    }
  }

  /******* The hash text *******/

  function Params(c: Config): string {
    "m=" + Decimal(c.memory) + ",t=" + Decimal(c.iterations) + ",p=" + Decimal(c.parallelism)
  }

  function HashText(c: Config, salt: seq<byte>, key: seq<byte>): string {
    "$argon2id$v=19$" + Params(c) + "$" + Encode(salt) + "$" + Encode(key)
  }

  /** A decimal below 2^32. */
  function ParseUint32(s: string): Option<nat> {
    if s == "" || !AllDigits(s) || DecimalValue(s) >= LIMIT32 then None else Some(DecimalValue(s))
  }

  /** `name=value` pairs into a map; a later pair replaces an earlier one of the same name. */
  function ReadParams(pairs: seq<string>): Option<map<string, nat>> {
    if pairs == [] then Some(map[])
    else
      var n := |pairs| - 1;
      match ReadParams(pairs[..n])
      case None => None
      case Some(values) =>
        var cut := Cut(pairs[n], "=");
        if !cut.found then None
        else
          match ParseUint32(cut.after)
          case None => None
          case Some(v) => Some(values[cut.before := v])
  }

  function ValueOf(values: map<string, nat>, name: string): nat { if name in values then values[name] else 0 }

  function DecodeHash(encoded: string): Option<(Config, seq<byte>, seq<byte>)> {
    var parts := Split(encoded, "$");
    if |parts| != 6 || parts[1] != "argon2id" || parts[2] != "v=19" then None
    else
      var params := Split(parts[3], ",");
      if |params| != 3 || ReadParams(params).None? || Decode(parts[4]).None? || Decode(parts[5]).None? then None
      else
        var values, salt, key := ReadParams(params).value, Decode(parts[4]).value, Decode(parts[5]).value;
        Some((Config(ValueOf(values, "m") % LIMIT32, ValueOf(values, "t") % LIMIT32, ValueOf(values, "p") % 256,
                     |salt| % LIMIT32, |key| % LIMIT32), salt, key))
  }

  /** Parameters are read when each has a name, an equals sign and a decimal number below 2^32. */
  lemma {:induction false} ParamsExactly(pairs: seq<string>)
    ensures ReadParams(pairs).Some? <==>
      forall i :: 0 <= i < |pairs| ==>
        var cut := Cut(pairs[i], "=");
        cut.found && cut.after != "" && AllDigits(cut.after) && DecimalValue(cut.after) < 0x1_0000_0000
  {
    if pairs != [] {
      ParamsExactly(pairs[..|pairs| - 1]);
      assert forall i :: 0 <= i < |pairs| - 1 ==> pairs[..|pairs| - 1][i] == pairs[i];
    }
  }

  /** Which texts are hashes: six parts between dollar signs, the second and third fixed, three parameters
      that are read, and a salt and a key that decode. */
  lemma HashExactly(encoded: string)
    ensures DecodeHash(encoded).Some? <==>
      var parts := Split(encoded, "$");
      && |parts| == 6 && parts[1] == "argon2id" && parts[2] == "v=19" && |Split(parts[3], ",")| == 3
      && (forall i :: 0 <= i < 3 ==>
            var cut := Cut(Split(parts[3], ",")[i], "=");
            cut.found && cut.after != "" && AllDigits(cut.after) && DecimalValue(cut.after) < 0x1_0000_0000)
      && forall i :: 4 <= i < 6 ==>
           |Unbroken(parts[i])| % 4 != 1 && forall j :: 0 <= j < |Unbroken(parts[i])| ==>
             IsSymbol64(Unbroken(parts[i])[j])
  {
    hide Split, Cut, ReadParams, Decoded, Unbroken, DecimalValue, AllDigits;
    var parts := Split(encoded, "$");
    if |parts| == 6 {
      ParamsExactly(Split(parts[3], ","));
      DecodedExactly(Unbroken(parts[4]));
      DecodedExactly(Unbroken(parts[5]));
    }
  }

  method CollectParams(params: seq<string>) returns (res: Option<map<string, nat>>)
    ensures res == ReadParams(params)
  {
    var values := map[];
    for i := 0 to |params|
      invariant ReadParams(params[..i]) == Some(values)
    {
      hide Cut, ParseUint32;
      assert params[..i + 1][..i] == params[..i];
      var cut := Cut(params[i], "=");
      if !cut.found || ParseUint32(cut.after).None? {
        FailureStays(params, i + 1);
        return None;
      }
      values := values[cut.before := ParseUint32(cut.after).value];
    }
    assert params[..|params|] == params;
    return Some(values);
  }

  method ReadHash(encoded: string) returns (res: Option<(Config, seq<byte>, seq<byte>)>)
    ensures res == DecodeHash(encoded)
  {
    hide Split, Decode, ReadParams;
    var parts := Split(encoded, "$");
    if |parts| != 6 || parts[1] != "argon2id" || parts[2] != "v=19" { return None; }
    var params := Split(parts[3], ",");
    if |params| != 3 { return None; }
    var values := CollectParams(params);
    if values.None? { return None; }
    var salt, key := Decode(parts[4]), Decode(parts[5]);
    if salt.None? || key.None? { return None; }
    var config := Config(ValueOf(values.value, "m") % LIMIT32, ValueOf(values.value, "t") % LIMIT32,
                         ValueOf(values.value, "p") % 256, |salt.value| % LIMIT32, |key.value| % LIMIT32);
    return Some((config, salt.value, key.value));
  }

  lemma {:induction false} FailureStays(pairs: seq<string>, n: nat)
    requires n <= |pairs| && ReadParams(pairs[..n]).None?
    ensures ReadParams(pairs).None?
    decreases |pairs|
  {
    if n == |pairs| {
      assert pairs[..n] == pairs;
    } else {
      var m := |pairs| - 1;
      assert pairs[..m][..n] == pairs[..n];
      FailureStays(pairs[..m], n);
    }
  }

  /******* Reading back what was written *******/

  lemma PairReads(name: string, n: nat, pair: string)
    requires '=' !in name && n < LIMIT32 && pair == name + "=" + Decimal(n)
    ensures Cut(pair, "=") == CutResult(name, Decimal(n), true) && ParseUint32(Decimal(n)) == Some(n)
  {
    assert pair[|name|..|name| + 1] == "=";
    forall i | 0 <= i < |name| ensures !OccursAt(pair, "=", i) { assert pair[i..i + 1][0] == name[i]; }
    FindAt(pair, "=", |name|);
    assert pair[..|name|] == name && pair[|name| + 1..] == Decimal(n);
    DecimalRoundTrip(n);
  }

  lemma OneMorePair(pairs: seq<string>, values: map<string, nat>, name: string, n: nat, pair: string)
    requires ReadParams(pairs) == Some(values) && '=' !in name && n < LIMIT32 && pair == name + "=" + Decimal(n)
    ensures ReadParams(pairs + [pair]) == Some(values[name := n])
  {
    hide Cut, ParseUint32, Decimal;
    PairReads(name, n, pair);
    assert (pairs + [pair])[..|pairs|] == pairs;
  }

  lemma ThreePairs(a: string, x: nat, b: string, y: nat, c: string, z: nat, pairs: seq<string>)
    requires x < LIMIT32 && y < LIMIT32 && z < LIMIT32 && '=' !in a && '=' !in b && '=' !in c
    requires pairs == [a + "=" + Decimal(x), b + "=" + Decimal(y), c + "=" + Decimal(z)]
    ensures ReadParams(pairs) == Some(map[a := x][b := y][c := z])
  {
    assert ReadParams([]) == Some(map[]);
    hide ReadParams, Decimal;
    OneMorePair([], map[], a, x, pairs[0]);
    OneMorePair([] + [pairs[0]], map[][a := x], b, y, pairs[1]);
    OneMorePair([] + [pairs[0]] + [pairs[1]], map[][a := x][b := y], c, z, pairs[2]);
    assert [] + [pairs[0]] + [pairs[1]] + [pairs[2]] == pairs;
    assert map[][a := x] == map[a := x];
  }

  predicate Without(s: string, c: char) { c !in s }

  lemma DecimalWithout(n: nat, c: char)
    requires !IsDigit(c)
    ensures Without(Decimal(n), c)
  {}

  lemma EncodeWithout(b: seq<byte>, c: char)
    requires SextetOf(c).None?
    ensures Without(Encode(b), c)
  {
    EncodeClean(b);
  }

  lemma PairWithout(name: string, n: nat, pair: string, c: char)
    requires pair == name + Decimal(n) && c !in name && !IsDigit(c)
    ensures Without(pair, c)
  {
    DecimalWithout(n, c);
  }

  lemma ConcatWithout(a: string, b: string, c: char)
    requires Without(a, c) && Without(b, c)
    ensures Without(a + b, c)
  {}

  /** `m=x,t=y,p=z` splits into its pairs. */
  lemma ParamsSplit(c: Config, m: string, t: string, p: string)
    requires m == "m=" + Decimal(c.memory) && t == "t=" + Decimal(c.iterations) && p == "p=" + Decimal(c.parallelism)
    ensures Params(c) == m + "," + t + "," + p && Split(Params(c), ",") == [m, t, p] && Without(Params(c), '$')
  {
    forall d | d == ',' || d == '$' ensures Without(m, d) && Without(t, d) && Without(p, d) {
      PairWithout("m=", c.memory, m, d);
      PairWithout("t=", c.iterations, t, d);
      PairWithout("p=", c.parallelism, p, d);
    }
    hide Decimal, Split, Join;
    ParamsText(c, m, t, p);
    JoinThree(m, t, p, ",");
    SplitJoin([m, t, p], ',');
    ConcatWithout(m, ",", '$');
    ConcatWithout(m + ",", t, '$');
    ConcatWithout(m + "," + t, ",", '$');
    ConcatWithout(m + "," + t + ",", p, '$');
  }

  lemma ParamsText(c: Config, m: string, t: string, p: string)
    requires m == "m=" + Decimal(c.memory) && t == "t=" + Decimal(c.iterations) && p == "p=" + Decimal(c.parallelism)
    ensures Params(c) == m + "," + t + "," + p
  {
    hide Decimal;
    assert "," + "t=" == ",t=" && "," + "p=" == ",p=";
    Around(m, ",", "t=", Decimal(c.iterations));
    Around(m + "," + t, ",", "p=", Decimal(c.parallelism));
  }

  lemma JoinThree(a: string, b: string, c: string, sep: string)
    ensures Join([a, b, c], sep) == a + sep + b + sep + c
  {
    JoinCons(a, [b, c], sep);
    JoinCons(b, [c], sep);
    assert [a] + [b, c] == [a, b, c] && [b] + [c] == [b, c];
  }

  lemma HashTextJoins(c: Config, salt: seq<byte>, key: seq<byte>, algorithm: string, version: string)
    requires algorithm == "argon2id" && version == "v=19"
    ensures HashText(c, salt, key) == Join(["", algorithm, version, Params(c), Encode(salt), Encode(key)], "$")
  {
    hide Params, Encode, Join;
    var p, s, k := Params(c), Encode(salt), Encode(key);
    JoinThree(p, s, k, "$");
    JoinThree("", algorithm, version, "$");
    JoinSix(["", algorithm, version], [p, s, k], "$");
    assert ["", algorithm, version] + [p, s, k] == ["", algorithm, version, p, s, k];
    assert "" + "$" + algorithm + "$" + version + "$" == "$argon2id$v=19$";
    HeadFirst("$argon2id$v=19$", p, s, k);
  }

  lemma HeadFirst(head: string, p: string, s: string, k: string)
    ensures head + p + "$" + s + "$" + k == head + (p + "$" + s + "$" + k)
  {}

  lemma HashSplits(c: Config, salt: seq<byte>, key: seq<byte>, algorithm: string, version: string)
    requires algorithm == "argon2id" && version == "v=19" && Without(Params(c), '$')
    ensures Split(HashText(c, salt, key), "$") == ["", algorithm, version, Params(c), Encode(salt), Encode(key)]
  {
    var parts := ["", algorithm, version, Params(c), Encode(salt), Encode(key)];
    assert Without(algorithm, '$') && Without(version, '$') && Without("", '$');
    hide Params, Encode, HashText, Split, Join;
    HashTextJoins(c, salt, key, algorithm, version);
    EncodeWithout(salt, '$');
    EncodeWithout(key, '$');
    assert forall part :: part in parts ==> Without(part, '$');
    SplitJoin(parts, '$');
  }

  lemma {:induction false} JoinSix(a: seq<string>, b: seq<string>, sep: string)
    requires a != [] && b != []
    ensures Join(a + b, sep) == Join(a, sep) + sep + Join(b, sep)
  {
    if |a| == 1 {
      assert a == [a[0]];
      JoinCons(a[0], b, sep);
    } else {
      JoinSix(a[1..], b, sep);
      assert (a + b)[1..] == a[1..] + b;
      JoinCons(a[0], a[1..] + b, sep);
      assert a + b == [a[0]] + (a[1..] + b);
    }
  }

  /** The reader gives back every parameter and byte the text was laid out from. */
  lemma HashRoundTrip(c: Config, salt: seq<byte>, key: seq<byte>)
    requires Fits(c)
    ensures DecodeHash(HashText(c, salt, key))
         == Some((c.(saltLength := |salt| % LIMIT32, keyLength := |key| % LIMIT32), salt, key))
  {
    var m, t, p := "m=" + Decimal(c.memory), "t=" + Decimal(c.iterations), "p=" + Decimal(c.parallelism);
    hide Decimal, Encode, Decode, Params, Split, ReadParams, HashText;
    ParamsSplit(c, m, t, p);
    HashSplits(c, salt, key, "argon2id", "v=19");
    PairNames(c, m, t, p);
    Base64RoundTrip(salt);
    Base64RoundTrip(key);
  }

  lemma PairNames(c: Config, m: string, t: string, p: string)
    requires Fits(c) && m == "m=" + Decimal(c.memory) && t == "t=" + Decimal(c.iterations)
    requires p == "p=" + Decimal(c.parallelism)
    ensures var read := ReadParams([m, t, p]);
      && read.Some? && ValueOf(read.value, "m") == c.memory && ValueOf(read.value, "t") == c.iterations
      && ValueOf(read.value, "p") == c.parallelism
  {
    hide Decimal, ReadParams;
    assert "m" + "=" == "m=" && "t" + "=" == "t=" && "p" + "=" == "p=";
    assert "m"[0] == 'm' && "t"[0] == 't' && "p"[0] == 'p';
    ThreePairs("m", c.memory, "t", c.iterations, "p", c.parallelism, [m, t, p]);
  }

  /******* Hashing and verifying *******/

  /** The key derivation: password, salt, iterations, memory, parallelism and key length. */
  type Derivation = (string, seq<byte>, nat, nat, nat, nat) -> seq<byte>

  /** The derivation gives as many bytes as asked. */
  ghost predicate Derives(derive: Derivation) {
    forall w, s, t, m, p, n :: |derive(w, s, t, m, p, n)| == n
  }

  /** No memory means the default configuration. */
  function Effective(c: Config): Config { if c.memory == 0 then DEFAULT_CONFIG else c }

  method HashPassword(password: string, config: Config, salt: seq<byte>, derive: Derivation) returns (encoded: string)
    requires |salt| == Effective(config).saltLength
    ensures var c := Effective(config);
      encoded == HashText(c, salt, derive(password, salt, c.iterations, c.memory, c.parallelism, c.keyLength))
    ensures var c := if config.memory == 0 then Config(65536, 3, 2, 16, 32) else config;
      encoded == "$argon2id$v=19$m=" + Decimal(c.memory) + ",t=" + Decimal(c.iterations) +
        ",p=" + Decimal(c.parallelism) + "$" + Encode(salt) + "$" +
        Encode(derive(password, salt, c.iterations, c.memory, c.parallelism, c.keyLength))
  {
    hide Decimal, Encode, Params;
    var c := if config.memory == 0 then DEFAULT_CONFIG else config;
    var key := derive(password, salt, c.iterations, c.memory, c.parallelism, c.keyLength);
    encoded := "$argon2id$v=19$m=" + Decimal(c.memory) + ",t=" + Decimal(c.iterations) + ",p=" + Decimal(c.parallelism)
      + "$" + Encode(salt) + "$" + Encode(key);
    SameText("$argon2id$v=19$", "$argon2id$v=19$m=", c, Encode(salt), Encode(key));
  }

  lemma SameText(head: string, start: string, c: Config, s: string, k: string)
    requires start == head + "m="
    ensures start + Decimal(c.memory) + ",t=" + Decimal(c.iterations) + ",p=" +
      Decimal(c.parallelism) + "$" + s + "$" + k
         == head + Params(c) + "$" + s + "$" + k
  {
    hide Decimal;
  }

  /** None when the text is not a hash; else whether the password derives the same key. */
  function Verify(password: string, encoded: string, derive: Derivation): Option<bool> {
    match DecodeHash(encoded)
    case None => None
    case Some((c, salt, key)) => Some(derive(password, salt, c.iterations, c.memory, c.parallelism, c.keyLength) == key)
  }

  method VerifyPassword(password: string, encoded: string, derive: Derivation) returns (res: Option<bool>)
    ensures res == Verify(password, encoded, derive)
    ensures res.None? <==> DecodeHash(encoded).None?
    ensures res.Some? ==>
      var (c, salt, key) := DecodeHash(encoded).value;
      res.value == (derive(password, salt, c.iterations, c.memory, c.parallelism, c.keyLength) == key)
  {
    var decoded := ReadHash(encoded);
    if decoded.None? { return None; }
    var (c, salt, key) := decoded.value;
    return Some(derive(password, salt, c.iterations, c.memory, c.parallelism, c.keyLength) == key);
  }

  /** A hash verifies with exactly the passwords that derive its key, its own among them. */
  lemma HashVerifies(password: string, other: string, config: Config, salt: seq<byte>, derive: Derivation)
    requires Fits(config) && |salt| == Effective(config).saltLength && Derives(derive)
    ensures var c := Effective(config);
      var key := derive(password, salt, c.iterations, c.memory, c.parallelism, c.keyLength);
      Verify(other, HashText(c, salt, key), derive)
        == Some(derive(other, salt, c.iterations, c.memory, c.parallelism, c.keyLength) == key)
  {
    hide HashText, DecodeHash;
    var c := Effective(config);
    HashRoundTrip(c, salt, derive(password, salt, c.iterations, c.memory, c.parallelism, c.keyLength));
  }
}
