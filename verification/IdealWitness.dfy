/**
 The assumptions on ideal cryptography do not contradict each other: here is a
 (useless) instance that meets them all.
 */
module IdealWitness {
  import opened Wrappers
  import opened Bytes
  import opened VaultModel
  import opened VaultSeal

  /** A self-delimiting encoding of a string. */
  function Marked(s: string): bytes {
    if s == [] then [0]
    else
      var n := s[0] as int;
      [1, n / 0x1_0000, n / 0x100 % 0x100, n % 0x100] + Marked(s[1..])
  }

  /** The string, and what follows it. */
  function Unmarked(b: bytes): Option<(string, bytes)>
    decreases |b|
  {
    if b == [] then None
    else if b[0] == 0 then Some(([], b[1..]))
    else if |b| < 4 then None
    else
      var n := 0x1_0000 * (b[1] as int) + 0x100 * (b[2] as int) + (b[3] as int);
      if 0xD800 <= n < 0xE000 || n >= 0x11_0000 then None
      else match Unmarked(b[4..]) case None => None case Some((s, rest)) => Some(([n as char] + s, rest))
  }

  lemma {:induction false} UnmarkedMarked(s: string, rest: bytes)
    ensures Unmarked(Marked(s) + rest) == Some((s, rest))
  {
    var b := Marked(s) + rest;
    if s == [] {
      assert b[1..] == rest;
    } else {
      UnmarkedMarked(s[1..], rest);
      var n := s[0] as int;
      assert Marked(s) == [1, n / 0x1_0000, n / 0x100 % 0x100, n % 0x100] + Marked(s[1..]);
      assert b == [1, n / 0x1_0000, n / 0x100 % 0x100, n % 0x100] + (Marked(s[1..]) + rest);
      assert b[4..] == Marked(s[1..]) + rest;
      assert !(0xD800 <= n < 0xE000) && n < 0x11_0000 && n as char == s[0];
      assert n / 0x1_0000 * 0x100 + n / 0x100 % 0x100 == n / 0x100;
      assert 0x1_0000 * (b[1] as int) + 0x100 * (b[2] as int) + (b[3] as int) == n;
      assert [n as char] + s[1..] == s;
    }
  }

  function Opened(card: Card, b: bytes): PgpReply {
    match Unmarked(b) case None => Refused case Some((fp, m)) => if Unlocks(card, fp) then Plain(m) else Refused
  }

  /** A key as text, so that the same encoding serves for it. */
  function AsText(k: bytes): string { seq(|k|, i requires 0 <= i < |k| => k[i] as char) }

  /** Ciphertexts that carry their key, and open only when it is named. */
  function Sealing(k: bytes, m: bytes): bytes { Marked(AsText(k)) + m }

  function Unsealing(k: bytes, ct: bytes): Option<bytes> {
    match Unmarked(ct) case None => None case Some((s, m)) => if s == AsText(k) then Some(m) else None
  }

  lemma Unseals(k: bytes, k': bytes, m: bytes)
    ensures Sealing(k, m) != []
    ensures Unsealing(k', Sealing(k, m)) == if k' == k then Some(m) else None
  {
    UnmarkedMarked(AsText(k), m);
    if AsText(k) == AsText(k') {
      assert |k| == |k'|;
      forall i | 0 <= i < |k|
        ensures k[i] == k'[i]
      {
        assert AsText(k)[i] as int == k[i] && AsText(k')[i] as int == k'[i];
      }
    }
  }

  const INSTANCE := Crypto(
    (p: bytes, s: bytes, k: KdfParams) => seq(k.hashLen, i => 0),
    (a: Cipher, k: bytes, n: bytes, ad: bytes, m: bytes) => Sealing(k, m),
    (a: Cipher, k: bytes, n: bytes, ad: bytes, ct: bytes) => Unsealing(k, ct),
    (fp: string, m: bytes) => Marked(fp) + m,
    (card: Card, ct: bytes) => Opened(card, ct))

  lemma IdealIsConsistent()
    ensures Ideal(INSTANCE) && KeyBound(INSTANCE)
  {
    forall card, fp, m: bytes
      ensures INSTANCE.pgpOpen(card, INSTANCE.pgpSeal(fp, m)) == if Unlocks(card, fp) then Plain(m) else Refused
    {
      UnmarkedMarked(fp, m);
    }
    forall a, k: bytes, k': bytes, n: bytes, ad: bytes, m: bytes
      ensures INSTANCE.seal(a, k, n, ad, m) != []
      ensures INSTANCE.open(a, k', n, ad, INSTANCE.seal(a, k, n, ad, m)) == if k' == k then Some(m) else None
    {
      Unseals(k, k', m);
    }
  }
}
