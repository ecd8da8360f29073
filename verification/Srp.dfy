/** The logon key exchange of the test client, and the server it talks to. */
module Srp {
  import opened Octets

  // ----- powers modulo a number

  function Pow(b: int, e: nat): int {
    if e == 0 then 1 else b * Pow(b, e - 1)
  }

  /** pow(b, e, n). */
  function PowMod(b: int, e: nat, n: nat): (r: nat)
    requires n > 0
    ensures r < n
  {
    Pow(b, e) % n
  }

  lemma {:induction false} PowAdd(b: int, d: nat, e: nat)
    ensures Pow(b, d + e) == Pow(b, d) * Pow(b, e)
    decreases d
  {
    if d > 0 {
      PowAdd(b, d - 1, e);
      assert Pow(b, d + e) == b * (Pow(b, d - 1) * Pow(b, e)) == (b * Pow(b, d - 1)) * Pow(b, e);
    }
  }

  lemma {:induction false} PowTimes(b: int, d: nat, e: nat)
    ensures Pow(Pow(b, d), e) == Pow(b, d * e)
    decreases e
  {
    if e > 0 {
      PowTimes(b, d, e - 1);
      PowAdd(b, d, d * (e - 1));
      assert d * e == d + d * (e - 1);
    } else {
      assert d * e == 0;
    }
  }

  lemma Multiple(k: int, n: int)
    requires n > 0
    ensures k >= 1 ==> k * n >= n
    ensures k <= -1 ==> k * n <= -n
  {
  }

  lemma ModUnique(x: int, q: int, r: int, n: int)
    requires n > 0 && x == q * n + r && 0 <= r < n
    ensures x % n == r
  {
    var k := q - x / n;
    assert x == (x / n) * n + x % n;
    assert k * n == q * n - (x / n) * n == x % n - r;
    Multiple(k, n);
  }

  /** Equal remainders. */
  predicate Same(a: int, b: int, n: int)
    requires n > 0
  {
    a % n == b % n
  }

  lemma Shifted(a: int, k: int, n: int)
    requires n > 0
    ensures Same(a + k * n, a, n)
  {
    assert a + k * n == (a / n + k) * n + a % n by {
      assert a == (a / n) * n + a % n;
      assert (a / n + k) * n == (a / n) * n + k * n;
    }
    ModUnique(a + k * n, a / n + k, a % n, n);
  }

  lemma Quotients(a: int, b: int, n: int) returns (p: int)
    requires n > 0 && Same(a, b, n)
    ensures a == b + p * n
  {
    p := a / n - b / n;
    assert a == (a / n) * n + a % n && b == (b / n) * n + b % n;
    assert p * n == (a / n) * n - (b / n) * n;
  }

  lemma Expanded(b: int, p: int, d: int, q: int, n: int)
    ensures (b + p * n) * (d + q * n) == b * d + (b * q + p * d + p * q * n) * n
  {
    assert (b + p * n) * (d + q * n) == b * d + b * (q * n) + (p * n) * d + (p * n) * (q * n);
    assert b * (q * n) == (b * q) * n && (p * n) * d == (p * d) * n && (p * n) * (q * n) == (p * q * n) * n;
  }

  lemma SameProducts(a: int, b: int, c: int, d: int, n: int)
    requires n > 0 && Same(a, b, n) && Same(c, d, n)
    ensures Same(a * c, b * d, n)
  {
    var p := Quotients(a, b, n);
    var q := Quotients(c, d, n);
    Expanded(b, p, d, q, n);
    Shifted(b * d, b * q + p * d + p * q * n, n);
  }

  lemma {:induction false} SamePowers(a: int, b: int, e: nat, n: int)
    requires n > 0 && Same(a, b, n)
    ensures Same(Pow(a, e), Pow(b, e), n)
    decreases e
  {
    if e > 0 {
      SamePowers(a, b, e - 1, n);
      SameProducts(a, b, Pow(a, e - 1), Pow(b, e - 1), n);
    }
  }

  lemma Remainder(a: int, n: int)
    requires n > 0
    ensures Same(a % n, a, n)
  {
    ModUnique(a % n, 0, a % n, n);
  }

  // ----- the two sides

  const GENERATOR := 7
  const MULTIPLIER := 3

  /** The client: the server's public value less three verifiers, to the private value plus scrambling times secret. */
  function ClientShared(n: nat, serverPublic: nat, private: nat, secret: nat, scrambling: nat): nat
    requires n > 0
  {
    PowMod((serverPublic - MULTIPLIER * PowMod(GENERATOR, secret, n)) % n, private + scrambling * secret, n)
  }

  /** The server, by section 2.6 of RFC 5054. */
  function ServerPublic(n: nat, verifier: nat, private: nat): nat
    requires n > 0
  {
    (MULTIPLIER * verifier + PowMod(GENERATOR, private, n)) % n
  }

  function ServerShared(n: nat, verifier: nat, clientPublic: nat, private: nat, scrambling: nat): nat
    requires n > 0
  {
    PowMod(clientPublic * PowMod(verifier, scrambling, n), private, n)
  }

  lemma LessMultiple(m: int, g: int, n: int)
    requires n > 0
    ensures Same((m + g) % n - m, g, n)
  {
    var q := (m + g) / n;
    assert (m + g) % n == m + g - q * n;
    assert (m + g) % n - m == g + (-q) * n;
    Shifted(g, -q, n);
  }

  lemma ServerPublicLessVerifiers(n: nat, v: nat, b: nat)
    requires n > 0
    ensures Same((ServerPublic(n, v, b) - MULTIPLIER * v) % n, Pow(GENERATOR, b), n)
  {
    LessMultiple(MULTIPLIER * v, PowMod(GENERATOR, b, n), n);
    Remainder(ServerPublic(n, v, b) - MULTIPLIER * v, n);
    Remainder(Pow(GENERATOR, b), n);
  }

  lemma Exponents(g: int, a: nat, b: nat, x: nat, u: nat)
    ensures Pow(Pow(g, b), a + u * x) == Pow(Pow(g, a) * Pow(Pow(g, x), u), b)
  {
    PowTimes(g, b, a + u * x);
    Scrambled(g, a, x, u);
    PowTimes(g, a + x * u, b);
    Reordered(a, b, x, u);
  }

  lemma Scrambled(g: int, a: nat, x: nat, u: nat)
    ensures Pow(g, a) * Pow(Pow(g, x), u) == Pow(g, a + x * u)
  {
    PowTimes(g, x, u);
    PowAdd(g, a, x * u);
  }

  lemma Reordered(a: nat, b: nat, x: nat, u: nat)
    ensures b * (a + u * x) == (a + x * u) * b
  {
    assert u * x == x * u;
  }

  /** Both sides come to the same number, whatever the secrets. */
  lemma SharedAgree(n: nat, a: nat, b: nat, x: nat, u: nat)
    requires n > 0
    ensures var v := PowMod(GENERATOR, x, n);
      ClientShared(n, ServerPublic(n, v, b), a, x, u) == ServerShared(n, v, PowMod(GENERATOR, a, n), b, u)
  {
    var v := PowMod(GENERATOR, x, n);
    var base := (ServerPublic(n, v, b) - MULTIPLIER * v) % n;
    ServerPublicLessVerifiers(n, v, b);
    SamePowers(base, Pow(GENERATOR, b), a + u * x, n);
    Exponents(GENERATOR, a, b, x, u);
    Remainder(Pow(GENERATOR, a), n);
    Remainder(Pow(GENERATOR, x), n);
    SamePowers(v, Pow(GENERATOR, x), u, n);
    Remainder(Pow(v, u), n);
    SameProducts(PowMod(GENERATOR, a, n), Pow(GENERATOR, a), PowMod(v, u, n), Pow(Pow(GENERATOR, x), u), n);
    SamePowers(PowMod(GENERATOR, a, n) * PowMod(v, u, n), Pow(GENERATOR, a) * Pow(Pow(GENERATOR, x), u), b, n);
  }

  // ----- bytes

  type Digest = b: Bytes | |b| == 20 witness [0, 0, 0, 0, 0, 0, 0, 0, 0, 0, 0, 0, 0, 0, 0, 0, 0, 0, 0, 0]

  /** SHA-1, str.upper and str.encode. */
  datatype Tools = Tools(sha: Bytes -> Digest, upper: string -> string, encode: string -> Bytes)

  const PRIME: Bytes :=
    [183, 155, 62, 42, 135, 130, 60, 171, 143, 94, 191, 191, 142, 177, 1, 8,
     83, 80, 6, 41, 139, 91, 173, 189, 91, 83, 225, 137, 94, 100, 75, 137]

  /** A modulus that fits in 32 bytes. */
  predicate Modulus(n: nat) { 0 < n < Power256(32) }

  lemma PrimeIsModulus()
    ensures |PRIME| == 32 && Modulus(Little(PRIME))
  {
    LittleBound(PRIME);
  }

  /** The exponent both the verifier and the logon come from; the user name is in upper case already. */
  function Secret(t: Tools, username: string, password: string, salt: Bytes): nat {
    Little(t.sha(salt + t.sha(t.encode(username + ":" + t.upper(password)))))
  }

  /** What the server keeps of an account. */
  function Verifier(t: Tools, n: nat, username: string, password: string, salt: Bytes): Bytes
    requires Modulus(n)
  {
    LittleBytes(PowMod(GENERATOR, Secret(t, t.upper(username), password, salt), n), 32)
  }

  // ----- from the shared number to the key

  function LeadingZeros(s: Bytes): (z: nat)
    ensures z <= |s| && forall i | 0 <= i < z :: s[i] == 0
    ensures z < |s| ==> s[z] != 0
  {
    if |s| == 0 || s[0] != 0 then 0 else 1 + LeadingZeros(s[1..])
  }

  /** Leading zeros off, and one more byte if their number was odd. */
  function Trim(s: Bytes): Bytes {
    var zeros := LeadingZeros(s);
    var cut := zeros + zeros % 2;
    s[if cut < |s| then cut else |s|..]
  }

  /** SHA_Interleave of section 3.1 of RFC 2945, first step: leading zeros off, and the first byte too if what is left
      is odd. */
  function InterleaveInput(s: Bytes): Bytes {
    var rest := s[LeadingZeros(s)..];
    if |rest| % 2 == 1 then rest[1..] else rest
  }

  /** On an even number of bytes the two rules are one, and leave an even number. */
  lemma TrimIsInterleaveInput(s: Bytes)
    requires |s| % 2 == 0
    ensures Trim(s) == InterleaveInput(s) && |Trim(s)| % 2 == 0
  {
    var zeros := LeadingZeros(s);
    var rest := s[zeros..];
    assert |rest| % 2 == zeros % 2;
    if zeros % 2 == 1 {
      assert rest[1..] == s[zeros + 1..];
    }
  }

  lemma Parity(n: nat, z: nat)
    requires n % 2 == 1 && z <= n
    ensures (n - z) % 2 == 1 - z % 2
  {
  }

  lemma CutLengths(s: Bytes)
    requires |s| % 2 == 1 && LeadingZeros(s) < |s|
    ensures |Trim(s)| != |InterleaveInput(s)|
  {
    var zeros := LeadingZeros(s);
    Parity(|s|, zeros);
    assert |s[zeros..]| == |s| - zeros;
    if zeros % 2 == 0 {
      assert |Trim(s)| == |s| - zeros && |InterleaveInput(s)| == |s| - zeros - 1;
    } else {
      assert |Trim(s)| == |s| - zeros - 1 && |InterleaveInput(s)| == |s| - zeros;
    }
  }

  /** On an odd number they only agree when every byte is zero. */
  lemma TrimOfOddDiffers(s: Bytes)
    requires |s| % 2 == 1
    ensures Trim(s) == InterleaveInput(s) <==> LeadingZeros(s) == |s|
  {
    if LeadingZeros(s) < |s| {
      CutLengths(s);
    } else {
      assert s[|s|..] == [];
    }
  }

  /** Every other byte: s[::2], and s[1::2] of the rest. */
  function Evens(s: Bytes): (e: Bytes)
    ensures |e| == (|s| + 1) / 2 && forall i | 0 <= i < |e| :: e[i] == s[2 * i]
  {
    seq((|s| + 1) / 2, i requires 0 <= i < (|s| + 1) / 2 => s[2 * i])
  }

  function Odds(s: Bytes): (o: Bytes)
    ensures |o| == |s| / 2 && forall i | 0 <= i < |o| :: o[i] == s[2 * i + 1]
  {
    seq(|s| / 2, i requires 0 <= i < |s| / 2 => s[2 * i + 1])
  }

  /** The bytes of two digests in turn. */
  function Interleave(g: Bytes, h: Bytes): (r: Bytes)
    requires |g| == |h|
    ensures |r| == 2 * |g| && Evens(r) == g && Odds(r) == h
  {
    var r := seq(2 * |g|, i requires 0 <= i < 2 * |g| => if i % 2 == 0 then g[i / 2] else h[i / 2]);
    assert Evens(r) == g && Odds(r) == h;
    r
  }

  function SessionKey(t: Tools, shared: Bytes): (key: Bytes)
    ensures |key| == 40
  {
    var trimmed := Trim(shared);
    Interleave(t.sha(Evens(trimmed)), t.sha(Odds(trimmed)))
  }

  // ----- the exchange

  /** The client's public value and key, from what the server sent. */
  function ClientPublic(n: nat, private: nat): Bytes
    requires Modulus(n)
  {
    LittleBytes(PowMod(GENERATOR, private, n), 32)
  }

  function ClientKey(t: Tools, n: nat, username: string, password: string, salt: Bytes, serverPublic: Bytes, private: nat): Bytes
    requires Modulus(n)
  {
    var scrambling := Little(t.sha(ClientPublic(n, private) + serverPublic));
    var shared := ClientShared(n, Little(serverPublic), private, Secret(t, username, password, salt), scrambling);
    SessionKey(t, LittleBytes(shared, 32))
  }

  /** The server works from the verifier, and hashes by the rule of RFC 2945. */
  function ServerKey(t: Tools, n: nat, verifier: Bytes, clientPublic: Bytes, serverPublic: Bytes, private: nat): Bytes
    requires Modulus(n)
  {
    var scrambling := Little(t.sha(clientPublic + serverPublic));
    var input := InterleaveInput(LittleBytes(ServerShared(n, Little(verifier), Little(clientPublic), private, scrambling), 32));
    Interleave(t.sha(Evens(input)), t.sha(Odds(input)))
  }

  /** How a challenge ends: an answer that is refused or breaks off, a status, or an offer; then what is not read yet. */
  datatype Outcome = Failed | Status(code: Byte, rest: Bytes) | Offered(rest: Bytes)

  /** What a server that knows the account sends: public value, generator, prime, salt, sixteen bytes, no further checks. */
  function Offer(prime: Bytes, public: Bytes, salt: Bytes, extra: Bytes): Bytes {
    [0, 0, 0] + public + [1, GENERATOR] + ([32] + prime) + salt + extra + [0]
  }

  predicate IsOffer(prime: Bytes, answer: Bytes, public: Bytes, salt: Bytes, extra: Bytes, rest: Bytes) {
    |public| == 32 && |salt| == 32 && |extra| == 16 && answer == Offer(prime, public, salt, extra) + rest
  }

  predicate IsStatus(answer: Bytes) {
    |answer| >= 3 && answer[0] == 0 && answer[1] == 0 && answer[2] != 0
  }

  /** Each part in its place. */
  predicate InPlace(prime: Bytes, answer: Bytes) {
    && |answer| >= 119 && answer[..3] == [0, 0, 0] && answer[35..37] == [1, GENERATOR]
    && answer[37..70] == [32] + prime && answer[118..119] == [0]
  }

  lemma NextPart(answer: Bytes, at: nat, part: Bytes, more: Bytes)
    requires at <= |answer| && answer[at..] == part + more
    ensures at + |part| <= |answer| && answer[at..at + |part|] == part && answer[at + |part|..] == more
  {
    assert answer[at..at + |part|] == answer[at..][..|part|] && answer[at + |part|..] == answer[at..][|part|..];
  }

  lemma PartsOfOffer(public: Bytes, prime: Bytes, salt: Bytes, extra: Bytes, rest: Bytes)
    ensures [0, 0, 0] + public + [1, GENERATOR] + prime + salt + extra + [0] + rest ==
            [0, 0, 0] + (public + ([1, GENERATOR] + (prime + (salt + (extra + ([0] + rest))))))
  {
  }

  lemma FirstParts(answer: Bytes, zeros: Bytes, public: Bytes, generator: Bytes, prime: Bytes, more: Bytes)
    requires |zeros| == 3 && |public| == 32 && |generator| == 2 && |prime| == 33
    requires answer[0..] == zeros + (public + (generator + (prime + more)))
    ensures |answer| >= 70 && answer[0..3] == zeros && answer[3..35] == public && answer[35..37] == generator
    ensures answer[37..70] == prime && answer[70..] == more
  {
    NextPart(answer, 0, zeros, public + (generator + (prime + more)));
    NextPart(answer, 3, public, generator + (prime + more));
    NextPart(answer, 35, generator, prime + more);
    NextPart(answer, 37, prime, more);
  }

  lemma LastParts(answer: Bytes, salt: Bytes, extra: Bytes, zero: Bytes, rest: Bytes)
    requires |salt| == 32 && |extra| == 16 && |zero| == 1
    requires |answer| >= 70 && answer[70..] == salt + (extra + (zero + rest))
    ensures |answer| >= 119 && answer[70..102] == salt && answer[118..119] == zero && answer[119..] == rest
  {
    NextPart(answer, 70, salt, extra + (zero + rest));
    NextPart(answer, 102, extra, zero + rest);
    NextPart(answer, 118, zero, rest);
  }

  lemma OfferInPlace(prime: Bytes, answer: Bytes, public: Bytes, salt: Bytes, extra: Bytes, rest: Bytes)
    requires |prime| == 32 && IsOffer(prime, answer, public, salt, extra, rest)
    ensures InPlace(prime, answer) && answer[3..35] == public && answer[70..102] == salt && answer[119..] == rest
  {
    PartsOfOffer(public, [32] + prime, salt, extra, rest);
    assert answer[0..] == answer;
    FirstParts(answer, [0, 0, 0], public, [1, GENERATOR], [32] + prime, salt + (extra + ([0] + rest)));
    LastParts(answer, salt, extra, [0], rest);
    assert answer[..3] == answer[0..3];
  }

  lemma InPlaceIsOffer(prime: Bytes, answer: Bytes)
    requires InPlace(prime, answer)
    ensures IsOffer(prime, answer, answer[3..35], answer[70..102], answer[102..118], answer[119..])
  {
    assert answer[..3] + answer[3..35] == answer[..35];
    assert answer[..35] + answer[35..37] == answer[..37];
    assert answer[..37] + answer[37..70] == answer[..70];
    assert answer[..70] + answer[70..102] == answer[..102];
    assert answer[..102] + answer[102..118] == answer[..118];
    assert answer[..118] + answer[118..119] == answer[..119];
    assert answer[..119] + answer[119..] == answer;
  }

  /** The state of a logon between challenge and proof; the prime is a constant of the client. */
  class Logon {
    const tools: Tools
    const prime: Bytes
    var username: string
    var serverPublic: Bytes
    var salt: Bytes

    constructor (tools: Tools, prime: Bytes)
      ensures this.tools == tools && this.prime == prime
    {
      this.tools, this.prime, username, serverPublic, salt := tools, prime, "", [], [];
    }

    /** Reads the server's answer: a status ends the logon, and only an offer for the known generator and prime leaves
        its public value and salt for the proof. */
    method Challenge(name: string, answer: Bytes) returns (r: Outcome)
      requires |prime| == 32
      modifies this
      ensures username == tools.upper(name)
      ensures r.Status? <==> IsStatus(answer)
      ensures r.Status? ==> r == Status(answer[2], answer[3..]) && serverPublic == old(serverPublic) && salt == old(salt)
      ensures r.Offered? ==> exists extra :: IsOffer(prime, answer, serverPublic, salt, extra, r.rest)
      ensures forall public, salt, extra, rest | IsOffer(prime, answer, public, salt, extra, rest) ::
        r == Offered(rest) && this.serverPublic == public && this.salt == salt
    {
      forall public, salt, extra, rest | IsOffer(prime, answer, public, salt, extra, rest)
        ensures InPlace(prime, answer) && answer[3..35] == public && answer[70..102] == salt && answer[119..] == rest
      {
        OfferInPlace(prime, answer, public, salt, extra, rest);
      }
      assert |answer| >= 3 ==> answer[..2] == [answer[0], answer[1]] && answer[..3] == [answer[0], answer[1], answer[2]];
      username := tools.upper(name);
      if |answer| < 3 || answer[..2] != [0, 0] {
        return Failed;
      }
      if answer[2] != 0 {
        return Status(answer[2], answer[3..]);
      }
      if |answer| < 35 {
        return Failed;
      }
      serverPublic := answer[3..35];
      if |answer| < 37 || answer[35..37] != [1, GENERATOR] {
        return Failed;
      }
      if |answer| < 70 || answer[37..70] != [32] + prime {
        return Failed;
      }
      if |answer| < 102 {
        return Failed;
      }
      salt := answer[70..102];
      if |answer| < 119 || answer[118..119] != [0] {
        return Failed;
      }
      InPlaceIsOffer(prime, answer);
      r := Offered(answer[119..]);
      assert IsOffer(prime, answer, serverPublic, salt, answer[102..118], r.rest);
    }

    method Prove(password: string, random: Bytes) returns (public: Bytes, key: Bytes)
      requires Modulus(Little(prime))
      ensures public == ClientPublic(Little(prime), Little(random))
      ensures key == ClientKey(tools, Little(prime), username, password, salt, serverPublic, Little(random))
    {
      var modulus, private := Little(prime), Little(random);
      public := ClientPublic(modulus, private);
      var secret := Secret(tools, username, password, salt);
      var scrambling := Little(tools.sha(public + serverPublic));
      var shared := ClientShared(modulus, Little(serverPublic), private, secret, scrambling);
      key := SessionKey(tools, LittleBytes(shared, 32));
    }
  }

  lemma FitsInBytes(n: nat, x: nat)
    requires Modulus(n) && x < n
    ensures Little(LittleBytes(x, 32)) == x
  {
    LittleRoundTrip(x, 32);
  }

  /** For every account, salt and pair of secrets, client and server derive the same key. */
  lemma KeysAgree(t: Tools, n: nat, name: string, password: string, salt: Bytes, a: nat, b: nat)
    requires Modulus(n)
    ensures var verifier := Verifier(t, n, name, password, salt);
      var serverPublic := LittleBytes(ServerPublic(n, Little(verifier), b), 32);
      ClientKey(t, n, t.upper(name), password, salt, serverPublic, a) ==
      ServerKey(t, n, verifier, ClientPublic(n, a), serverPublic, b)
  {
    var x := Secret(t, t.upper(name), password, salt);
    var v := PowMod(GENERATOR, x, n);
    var serverPublic := LittleBytes(ServerPublic(n, v, b), 32);
    var u := Little(t.sha(ClientPublic(n, a) + serverPublic));
    FitsInBytes(n, v);
    FitsInBytes(n, ServerPublic(n, v, b));
    FitsInBytes(n, PowMod(GENERATOR, a, n));
    SharedAgree(n, a, b, x, u);
    TrimIsInterleaveInput(LittleBytes(ClientShared(n, ServerPublic(n, v, b), a, x, u), 32));
  }
}
