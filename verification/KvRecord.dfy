/** One record of the log file: a 24-byte header, the key, the value. */
module KvRecord {
  import opened Bytes

  const MAGIC: u32 := 0x4b564442
  const COMMITTED: u32 := 0xc01117ed
  const MAX_KEY: nat := 64 * 1024
  const MAX_VALUE: nat := 16 * 1024 * 1024
  const HEADER: nat := 24
  const FNV_BASIS: u32 := 2166136261
  const FNV_PRIME: u32 := 16777619

  datatype Entry = Entry(key: bytes, value: bytes)

  // ----- the checksum -----

  /** Bitwise exclusive or of two naturals. */
  function Xor(a: nat, b: nat): nat
    decreases a + b
  {
    if a == 0 && b == 0 then 0 else (a + b) % 2 + 2 * Xor(a / 2, b / 2)
  }

  function FnvStep(h: u32, b: byte): u32 {
    Xor(h, b) * FNV_PRIME % 0x1_0000_0000
  }

  function Fnv(data: bytes, h: u32): u32 {
    if data == [] then h else Fnv(data[1..], FnvStep(h, data[0]))
  }

  function Checksum(key: bytes, value: bytes): u32
    requires |key| <= MAX_KEY && |value| <= MAX_VALUE
  {
    Fnv(Le32(|key|) + Le32(|value|) + key + value, FNV_BASIS)
  }

  lemma {:induction false} FnvAppend(a: bytes, b: bytes, h: u32)
    ensures Fnv(a + b, h) == Fnv(b, Fnv(a, h))
    decreases |a|
  {
    if a == [] {
      assert a + b == b;
    } else {
      assert (a + b)[1..] == a[1..] + b;
      FnvAppend(a[1..], b, FnvStep(h, a[0]));
    }
  }

  method Fnv1a(data: bytes, seed: u32) returns (h: u32)
    ensures h == Fnv(data, seed)
  {
    h := seed;
    for i := 0 to |data|
      invariant Fnv(data, seed) == Fnv(data[i..], h)
    {
      assert data[i..][1..] == data[i + 1..];
      h := FnvStep(h, data[i]);
    }
  }

  /** Feeding the four parts one after the other hashes their concatenation. */
  method RecordChecksum(key: bytes, value: bytes) returns (h: u32)
    requires |key| <= MAX_KEY && |value| <= MAX_VALUE
    ensures h == Checksum(key, value) == Fnv(Le32(|key|) + Le32(|value|) + key + value, 2166136261)
  {
    var lengths := Le32(|key|) + Le32(|value|);
    FnvAppend(Le32(|key|), Le32(|value|), FNV_BASIS);
    FnvAppend(lengths, key, FNV_BASIS);
    FnvAppend(lengths + key, value, FNV_BASIS);
    h := Fnv1a(Le32(|key|), FNV_BASIS);
    h := Fnv1a(Le32(|value|), h);
    h := Fnv1a(key, h);
    h := Fnv1a(value, h);
  }

  // ----- what the checksum detects -----

  /** Bit `i` of a natural. */
  function Bit(n: nat, i: nat): nat {
    if i == 0 then n % 2 else Bit(n / 2, i - 1)
  }

  /** Last bit and half of the exclusive or. */
  lemma XorHalves(a: nat, b: nat)
    ensures Xor(a, b) % 2 == (a + b) % 2 && Xor(a, b) / 2 == Xor(a / 2, b / 2)
  {
    if a == 0 && b == 0 {
      assert Xor(a / 2, b / 2) == 0;
    } else {
      BitAndHalf((a + b) % 2, Xor(a / 2, b / 2));
    }
  }

  lemma BitAndHalf(bit: nat, half: nat)
    requires bit < 2
    ensures (bit + 2 * half) % 2 == bit && (bit + 2 * half) / 2 == half
  {
  }

  /** A bit of the exclusive or is set exactly if one of the two is. */
  lemma {:induction false} XorBits(a: nat, b: nat, i: nat)
    ensures Bit(Xor(a, b), i) == (Bit(a, i) + Bit(b, i)) % 2
    decreases i
  {
    hide Xor;
    XorHalves(a, b);
    if i > 0 {
      XorBits(a / 2, b / 2, i - 1);
    }
  }

  lemma {:induction false} XorUndone(a: nat, b: nat)
    ensures Xor(Xor(a, b), b) == a
    decreases a + b
  {
    if a == 0 && b == 0 {
      assert Xor(0, 0) == 0;
    } else {
      hide Xor;
      var x := Xor(a, b);
      XorHalves(a, b);
      XorHalves(x, b);
      XorUndone(a / 2, b / 2);
      Parity(a, b, x);
      SameHalves(Xor(x, b), a);
    }
  }

  lemma Parity(a: nat, b: nat, x: nat)
    requires x % 2 == (a + b) % 2
    ensures (x + b) % 2 == a % 2
  {
  }

  lemma SameHalves(x: nat, y: nat)
    requires x / 2 == y / 2 && x % 2 == y % 2
    ensures x == y
  {
  }

  lemma {:induction false} XorCommutes(a: nat, b: nat)
    ensures Xor(a, b) == Xor(b, a)
    decreases a + b
  {
    if a != 0 || b != 0 {
      XorCommutes(a / 2, b / 2);
    }
  }

  function Pow2(k: nat): nat { if k == 0 then 1 else 2 * Pow2(k - 1) }

  lemma {:induction false} XorBound(a: nat, b: nat, k: nat)
    requires a < Pow2(k) && b < Pow2(k)
    ensures Xor(a, b) < Pow2(k)
    decreases k
  {
    if k > 0 && (a != 0 || b != 0) {
      XorBound(a / 2, b / 2, k - 1);
    }
  }

  /** The inverse of the prime modulo 2^32. */
  const FNV_INVERSE: nat := 899433627

  /** Multiplication by the prime modulo 2^32 can be undone. */
  lemma PrimeUndone(x: u32)
    ensures (x * FNV_PRIME % 0x1_0000_0000) * FNV_INVERSE % 0x1_0000_0000 == x
  {
    var w, q := 0x1_0000_0000, x * FNV_PRIME / 0x1_0000_0000;
    assert FNV_PRIME * FNV_INVERSE == 1 + w * 3513497;
    assert x * FNV_PRIME % w == x * FNV_PRIME - q * w;
    WholeWords(x, x * 3513497 - q * FNV_INVERSE);
  }

  lemma WholeWords(x: u32, n: int)
    ensures (x + n * 0x1_0000_0000) % 0x1_0000_0000 == x
  {
  }

  /** A step of the hash tells states apart, and for one state it tells bytes apart. */
  lemma FnvStepInjective(h: u32, h': u32, b: byte, b': byte)
    ensures FnvStep(h, b) == FnvStep(h', b) ==> h == h'
    ensures FnvStep(h, b) == FnvStep(h, b') ==> b == b'
  {
    hide Xor;
    WordBound(h, b);
    WordBound(h', b);
    WordBound(h, b');
    PrimeUndone(Xor(h, b));
    PrimeUndone(Xor(h', b));
    PrimeUndone(Xor(h, b'));
    XorUndone(h, b);
    XorUndone(h', b);
    XorCommutes(h, b);
    XorCommutes(h, b');
    XorUndone(b, h);
    XorUndone(b', h);
  }

  lemma WordBound(h: u32, b: byte)
    ensures Xor(h, b) < 0x1_0000_0000
  {
    assert Pow2(8) == 256;
    assert Pow2(16) == 256 * Pow2(8);
    assert Pow2(24) == 256 * Pow2(16);
    assert Pow2(32) == 256 * Pow2(24);
    XorBound(h, b, 32);
  }

  lemma {:induction false} FnvInjective(data: bytes, h: u32, h': u32)
    requires h != h'
    ensures Fnv(data, h) != Fnv(data, h')
    decreases |data|
  {
    hide FnvStep;
    if data != [] {
      FnvStepInjective(h, h', data[0], data[0]);
      FnvInjective(data[1..], FnvStep(h, data[0]), FnvStep(h', data[0]));
    }
  }

  /** Changing one byte changes the hash. */
  lemma FnvSeesByte(data: bytes, i: nat, b: byte, seed: u32)
    requires i < |data| && data[i] != b
    ensures Fnv(data[i := b], seed) != Fnv(data, seed)
  {
    hide FnvStep, Fnv;
    var front, rest := data[..i], data[i + 1..];
    var h := Fnv(front, seed);
    assert data == front + ([data[i]] + rest) && data[i := b] == front + ([b] + rest);
    FnvAppend(front, [data[i]] + rest, seed);
    FnvAppend(front, [b] + rest, seed);
    FnvHead(data[i], rest, h);
    FnvHead(b, rest, h);
    FnvStepInjective(h, h, data[i], b);
    FnvInjective(rest, FnvStep(h, data[i]), FnvStep(h, b));
  }

  lemma FnvHead(b: byte, rest: bytes, h: u32)
    ensures Fnv([b] + rest, h) == Fnv(rest, FnvStep(h, b))
  {
    assert ([b] + rest)[1..] == rest;
  }

  /** Two pairs of the same lengths that differ in exactly one byte have different checksums. */
  lemma ChecksumSeesByte(key: bytes, value: bytes, i: nat, b: byte)
    requires |key| <= MAX_KEY && |value| <= MAX_VALUE
    ensures i < |key| && key[i] != b ==> Checksum(key[i := b], value) != Checksum(key, value)
    ensures i < |value| && value[i] != b ==> Checksum(key, value[i := b]) != Checksum(key, value)
  {
    hide Fnv;
    var lengths := Le32(|key|) + Le32(|value|);
    var data := lengths + key + value;
    if i < |key| && key[i] != b {
      assert data[8 + i := b] == lengths + key[i := b] + value;
      FnvSeesByte(data, 8 + i, b, FNV_BASIS);
    }
    if i < |value| && value[i] != b {
      assert data[8 + |key| + i := b] == lengths + key + value[i := b];
      FnvSeesByte(data, 8 + |key| + i, b, FNV_BASIS);
    }
  }

  /** Only the last `k` bits of `h` matter to a change by fewer bits. */
  lemma {:induction false} XorLow(hi: nat, lo: nat, b: nat, k: nat)
    requires lo < Pow2(k) && b < Pow2(k)
    ensures Xor(hi * Pow2(k) + lo, b) == hi * Pow2(k) + Xor(lo, b)
    decreases k
  {
    if k == 0 {
      XorZero(hi);
    } else {
      hide Xor;
      var h, top := hi * Pow2(k) + lo, hi * Pow2(k - 1);
      assert h == 2 * top + lo;
      LowHalf(top, lo, b);
      XorHalves(h, b);
      XorHalves(lo, b);
      XorLow(hi, lo / 2, b / 2, k - 1);
      LowHalf(top, Xor(lo, b), 0);
      SameHalves(Xor(h, b), 2 * top + Xor(lo, b));
    }
  }

  lemma LowHalf(top: nat, lo: nat, b: nat)
    ensures (2 * top + lo) / 2 == top + lo / 2 && (2 * top + lo) % 2 == lo % 2
    ensures (2 * top + lo + b) % 2 == (lo + b) % 2
  {
  }

  lemma {:induction false} XorZero(a: nat)
    ensures Xor(a, 0) == a
    decreases a
  {
    if a != 0 {
      XorZero(a / 2);
    }
  }

  lemma DoubleXor(a: nat, b: nat, x: nat)
    requires Xor(a / 2, b / 2) == x / 2 && (a + b) % 2 == x % 2
    ensures Xor(a, b) == x
  {
    hide Xor;
    XorHalves(a, b);
  }

  /** The published test vector of the hash for the letter a. */
  lemma FnvOfLetter()
    ensures Fnv([0x61], 2166136261) == 0xe40c292c
  {
    hide Xor;
    XorZero(1);
    DoubleXor(3, 1, 2);
    DoubleXor(6, 3, 5);
    DoubleXor(12, 6, 10);
    DoubleXor(24, 12, 20);
    DoubleXor(49, 24, 41);
    DoubleXor(98, 48, 82);
    DoubleXor(0xc5, 0x61, 0xa4);
    assert Pow2(8) == 256;
    XorLow(0x811c9d, 0xc5, 0x61, 8);
    assert 0x811c9da4 * FNV_PRIME % 0x1_0000_0000 == 0xe40c292c;
    assert [0x61 as byte][1..] == [];
  }

  // ----- the layout, read at the head of a byte string -----

  function Word(c: bytes, at: nat): nat
    requires at + 4 <= |c|
  {
    FromLe(c[at..at + 4])
  }

  function KeyLen(c: bytes): nat requires |c| >= HEADER { Word(c, 8) }

  function ValueLen(c: bytes): nat requires |c| >= HEADER { Word(c, 12) }

  /** The checks both scans make on a header; only the commit word is left out. */
  predicate HeaderOk(c: bytes) {
    && |c| >= HEADER
    && Word(c, 0) == MAGIC
    && 0 < KeyLen(c) <= MAX_KEY
    && ValueLen(c) <= MAX_VALUE
  }

  function RecordLen(c: bytes): nat
    requires HeaderOk(c)
  {
    HEADER + KeyLen(c) + ValueLen(c)
  }

  /** A whole record, committed or not, stands at the head of `c`. */
  predicate Whole(c: bytes) {
    HeaderOk(c) && RecordLen(c) <= |c|
  }

  function KeyOf(c: bytes): (k: bytes)
    requires Whole(c)
    ensures 0 < |k| <= MAX_KEY
  {
    c[HEADER..HEADER + KeyLen(c)]
  }

  function ValueOf(c: bytes): (v: bytes)
    requires Whole(c)
    ensures |v| <= MAX_VALUE
  {
    c[HEADER + KeyLen(c)..RecordLen(c)]
  }

  function EntryOf(c: bytes): Entry
    requires Whole(c)
  {
    Entry(KeyOf(c), ValueOf(c))
  }

  /** A whole, committed record with a matching checksum stands at the head of `c`. */
  predicate Good(c: bytes) {
    && Whole(c)
    && Word(c, 4) == COMMITTED
    && Word(c, 16) == Checksum(KeyOf(c), ValueOf(c))
  }

  /** What `kvdb_put` accepts. */
  predicate Storable(key: bytes, value: bytes) {
    0 < |key| <= MAX_KEY && |value| <= MAX_VALUE
  }

  function Header(key: bytes, value: bytes, commit: u32): (h: bytes)
    requires Storable(key, value)
    ensures |h| == HEADER
  {
    Le32(MAGIC) + Le32(commit) + Le32(|key|) + Le32(|value|) + Le32(Checksum(key, value)) + Le32(0)
  }

  function Image(key: bytes, value: bytes, commit: u32): (r: bytes)
    requires Storable(key, value)
    ensures |r| == HEADER + |key| + |value|
  {
    Header(key, value, commit) + key + value
  }

  /** Every field of the header is read back as it was stored. */
  lemma ImageWords(key: bytes, value: bytes, commit: u32)
    requires Storable(key, value)
    ensures var r := Image(key, value, commit);
            && Word(r, 0) == MAGIC && Word(r, 4) == commit && Word(r, 8) == |key| && Word(r, 12) == |value|
            && Word(r, 16) == Checksum(key, value)
  {
    hide Le32, FromLe, Checksum;
    var r := Image(key, value, commit);
    Le32RoundTrip(MAGIC);
    Le32RoundTrip(commit);
    Le32RoundTrip(|key|);
    Le32RoundTrip(|value|);
    Le32RoundTrip(Checksum(key, value));
    assert r[0..4] == Le32(MAGIC);
    assert r[4..8] == Le32(commit);
    assert r[8..12] == Le32(|key|);
    assert r[12..16] == Le32(|value|);
    assert r[16..20] == Le32(Checksum(key, value));
  }

  /** Decoding inverts encoding; the record is valid exactly when the commit word is set. */
  lemma ImageDecodes(key: bytes, value: bytes, commit: u32)
    requires Storable(key, value)
    ensures var r := Image(key, value, commit);
            && Whole(r) && RecordLen(r) == |r| && Word(r, 4) == commit
            && EntryOf(r) == Entry(key, value)
            && (Good(r) <==> commit == COMMITTED)
  {
    hide Word, Checksum, Header;
    var r := Image(key, value, commit);
    ImageWords(key, value, commit);
    assert KeyOf(r) == key;
    assert ValueOf(r) == value;
  }

  /** Everything the scans look at lies inside the record itself: a record is
      self-delimiting, whatever follows it. */
  lemma HeadIsLocal(c: bytes, n: nat)
    requires n <= |c|
    requires |c[..n]| >= HEADER
    ensures HeaderOk(c) <==> HeaderOk(c[..n])
    ensures HeaderOk(c) ==> RecordLen(c) == RecordLen(c[..n])
    ensures KeyLen(c) == KeyLen(c[..n]) && ValueLen(c) == ValueLen(c[..n])
    ensures Word(c, 4) == Word(c[..n], 4) && Word(c, 16) == Word(c[..n], 16)
    ensures Whole(c[..n]) ==> Whole(c) && EntryOf(c[..n]) == EntryOf(c) && (Good(c) <==> Good(c[..n]))
    ensures HeaderOk(c) && RecordLen(c) <= n ==> Whole(c[..n])
  {
    var d := c[..n];
    assert d[0..4] == c[0..4];
    assert d[4..8] == c[4..8];
    assert d[8..12] == c[8..12];
    assert d[12..16] == c[12..16];
    assert d[16..20] == c[16..20];
    if Whole(d) {
      assert KeyOf(d) == KeyOf(c);
      assert ValueOf(d) == ValueOf(c);
    }
  }

  /** Where each field stands, byte by byte. */
  lemma Layout(key: bytes, value: bytes, commit: u32)
    requires Storable(key, value)
    ensures var r := Image(key, value, commit);
            && r[0..4] == [0x42, 0x44, 0x56, 0x4b] && r[4..8] == Le32(commit)
            && r[8..12] == Le32(|key|) && r[12..16] == Le32(|value|)
            && r[16..20] == Le32(Checksum(key, value)) && r[20..24] == [0, 0, 0, 0]
            && r[24..24 + |key|] == key && r[24 + |key|..] == value
  {
    hide Checksum;
    var sum, r := Le32(Checksum(key, value)), Image(key, value, commit);
    assert Le32(MAGIC) == [0x42, 0x44, 0x56, 0x4b] && Le32(0) == [0, 0, 0, 0];
    hide Le32;
  }

  lemma {:induction false} FromLeSeesByte(s: bytes, i: nat, b: byte)
    requires i < |s| && s[i] != b
    ensures FromLe(s[i := b]) != FromLe(s)
    decreases |s|
  {
    var s' := s[i := b];
    if i == 0 {
      assert s'[1..] == s[1..];
    } else {
      assert s'[1..] == s[1..][i - 1 := b];
      FromLeSeesByte(s[1..], i - 1, b);
    }
  }

  /** A byte outside a field leaves it as it is; a byte inside changes it. */
  lemma WordChanged(c: bytes, at: nat, i: nat, b: byte)
    requires at + 4 <= |c| && i < |c| && c[i] != b
    ensures Word(c[i := b], at) == Word(c, at) <==> !(at <= i < at + 4)
  {
    hide FromLe;
    var c' := c[i := b];
    if at <= i < at + 4 {
      assert c'[at..at + 4] == c[at..at + 4][i - at := b];
      FromLeSeesByte(c[at..at + 4], i - at, b);
    } else {
      assert c'[at..at + 4] == c[at..at + 4];
    }
  }

  /** Damage to one byte of a good record, in its magic number, commit word, checksum, key or
      value, is noticed. */
  lemma DamageIsSeen(c: bytes, i: nat, b: byte)
    requires Good(c) && i < RecordLen(c) && c[i] != b
    requires i < 8 || 16 <= i < 20 || HEADER <= i
    ensures !Good(c[i := b])
  {
    hide Word, Checksum;
    var c' := c[i := b];
    WordChanged(c, 0, i, b);
    WordChanged(c, 4, i, b);
    WordChanged(c, 8, i, b);
    WordChanged(c, 12, i, b);
    WordChanged(c, 16, i, b);
    if i >= HEADER {
      var k := HEADER + KeyLen(c);
      if i < k {
        assert KeyOf(c') == KeyOf(c)[i - HEADER := b] && ValueOf(c') == ValueOf(c);
        ChecksumSeesByte(KeyOf(c), ValueOf(c), i - HEADER, b);
      } else {
        assert KeyOf(c') == KeyOf(c) && ValueOf(c') == ValueOf(c)[i - k := b];
        ChecksumSeesByte(KeyOf(c), ValueOf(c), i - k, b);
      }
    }
  }
}
