/**
 XXTeaCipher: Corrected Block TEA over an array of 32-bit words updated in place, and
 the byte framing around it.
 */
module Xxtea {
  import opened Wrappers
  import opened Bytes
  import opened Arithmetic

  const WORD: nat := 0x1_0000_0000
  const DELTA: nat := 0x9e37_79b9

  type Word = x: int | 0 <= x < WORD
  type Key = k: seq<Word> | |k| == 4 witness [0, 0, 0, 0]

  // ------------------------------------------------------------ block cipher

  function Bits(w: Word): bv32 { w as bv32 }

  function Num(b: bv32): Word { b as int }

  /** The macro MX on the bits of its operands. */
  function MixBits(k: bv32, y: bv32, z: bv32, s: bv32): bv32 {
    (((z >> 5) ^ (y << 2)) + ((y >> 3) ^ (z << 4))) ^ ((s ^ y) + (k ^ z))
  }

  /** (p & 3) ^ e, with e the two bits of the sum above its lowest two. */
  function KeyIndex(p: nat, sum: Word): (i: nat)
    ensures i < 4
  {
    var q, e := p % 4, sum / 4 % 4;
    2 * (if q / 2 == e / 2 then 0 else 1) + if q % 2 == e % 2 then 0 else 1
  }

  /** The macro MX: what is added to word p, given its neighbours and the round sum. */
  function Mix(key: Key, y: Word, z: Word, sum: Word, p: nat): Word {
    Num(MixBits(Bits(key[KeyIndex(p, sum)]), Bits(y), Bits(z), Bits(sum)))
  }

  /** What a word is changed by, from the word after it, the one before it, the sum and its index. */
  type Mixer = (Word, Word, Word, nat) -> Word

  function Mx(key: Key): Mixer { (y: Word, z: Word, sum: Word, p: nat) => Mix(key, y, z, sum, p) }

  /** The words before and after p, in a ring. */
  function Before(d: seq<Word>, p: nat): Word
    requires p < |d|
  {
    d[if p == 0 then |d| - 1 else p - 1]
  }

  function After(d: seq<Word>, p: nat): Word
    requires p < |d|
  {
    d[if p == |d| - 1 then 0 else p + 1]
  }

  function MixAt(mix: Mixer, sum: Word, d: seq<Word>, p: nat): Word
    requires p < |d|
  {
    mix(After(d, p), Before(d, p), sum, p)
  }

  function EncStep(mix: Mixer, sum: Word, d: seq<Word>, p: nat): (r: seq<Word>)
    requires p < |d|
    ensures |r| == |d|
  {
    d[p := (d[p] + MixAt(mix, sum, d, p)) % WORD]
  }

  function DecStep(mix: Mixer, sum: Word, d: seq<Word>, p: nat): (r: seq<Word>)
    requires p < |d|
    ensures |r| == |d|
  {
    d[p := (d[p] - MixAt(mix, sum, d, p)) % WORD]
  }

  /** The first k word updates of a forward pass. */
  function EncTo(mix: Mixer, sum: Word, d: seq<Word>, k: nat): (r: seq<Word>)
    requires k <= |d|
    ensures |r| == |d|
  {
    if k == 0 then d else EncStep(mix, sum, EncTo(mix, sum, d, k - 1), k - 1)
  }

  /** A backward pass over words k - 1 down to 0. */
  function DecFrom(mix: Mixer, sum: Word, d: seq<Word>, k: nat): (r: seq<Word>)
    requires k <= |d|
    ensures |r| == |d|
    decreases k
  {
    if k == 0 then d else DecFrom(mix, sum, DecStep(mix, sum, d, k - 1), k - 1)
  }

  /** The sum in force in round r. */
  function SumAt(r: nat): Word { r * DELTA % WORD }

  function EncRounds(mix: Mixer, d: seq<Word>, r: nat): (e: seq<Word>)
    ensures |e| == |d|
  {
    if r == 0 then d else EncTo(mix, SumAt(r), EncRounds(mix, d, r - 1), |d|)
  }

  function DecRounds(mix: Mixer, d: seq<Word>, r: nat): (e: seq<Word>)
    ensures |e| == |d|
    decreases r
  {
    if r == 0 then d else DecRounds(mix, DecFrom(mix, SumAt(r), d, |d|), r - 1)
  }

  function Rounds(len: nat): nat
    requires len > 0
  {
    6 + 52 / len
  }

  /** 52 is shared out among the words, and six rounds are added. */
  lemma RoundsShare(len: nat)
    requires len > 0
    ensures Rounds(len) >= 6 && (Rounds(len) - 6) * len <= 52 < (Rounds(len) - 5) * len
  {
    var q, r := 52 / len, 52 % len;
    assert 52 == len * q + r;
    assert (q + 1) * len == q * len + len by { Distrib(len, q, 1); }
  }

  function EncWords(mix: Mixer, d: seq<Word>): (e: seq<Word>)
    requires d != []
    ensures |e| == |d|
  {
    if |d| < 2 then d else EncRounds(mix, d, Rounds(|d|))
  }

  function DecWords(mix: Mixer, d: seq<Word>): (e: seq<Word>)
    requires d != []
    ensures |e| == |d|
  {
    if |d| < 2 then d else DecRounds(mix, d, Rounds(|d|))
  }

  /** A reverse step undoes a forward step: neither neighbour is the word itself. */
  lemma StepUndone(mix: Mixer, sum: Word, d: seq<Word>, p: nat)
    requires p < |d| && |d| >= 2
    ensures DecStep(mix, sum, EncStep(mix, sum, d, p), p) == d
  {
    var e := EncStep(mix, sum, d, p);
    assert After(e, p) == After(d, p) && Before(e, p) == Before(d, p);
    var m := MixAt(mix, sum, d, p);
    assert MixAt(mix, sum, e, p) == m;
    assert ((d[p] + m) % WORD - m) % WORD == d[p];
  }

  lemma {:induction false} PassUndone(mix: Mixer, sum: Word, d: seq<Word>, k: nat)
    requires k <= |d| && |d| >= 2
    ensures DecFrom(mix, sum, EncTo(mix, sum, d, k), k) == d
  {
    hide EncStep, DecStep;
    if k > 0 {
      StepUndone(mix, sum, EncTo(mix, sum, d, k - 1), k - 1);
      PassUndone(mix, sum, d, k - 1);
    }
  }

  lemma {:induction false} RoundsUndone(mix: Mixer, d: seq<Word>, r: nat)
    requires |d| >= 2
    ensures DecRounds(mix, EncRounds(mix, d, r), r) == d
  {
    hide EncTo, DecFrom, SumAt;
    if r > 0 {
      PassUndone(mix, SumAt(r), EncRounds(mix, d, r - 1), |d|);
      RoundsUndone(mix, d, r - 1);
    }
  }

  /** Decrypting words undoes encrypting them, whatever the words are mixed with. */
  lemma WordsUndone(mix: Mixer, d: seq<Word>)
    requires d != []
    ensures DecWords(mix, EncWords(mix, d)) == d
  {
    if |d| >= 2 {
      hide EncRounds, DecRounds;
      RoundsUndone(mix, d, Rounds(|d|));
    }
  }

  /** DELTA is odd, so no sum is zero before 2^32 rounds: decrypt's loop stops exactly at round 0. */
  lemma SumNonzero(r: nat)
    requires 0 < r < WORD
    ensures SumAt(r) != 0
  {
    if SumAt(r) == 0 {
      TwoValues();
      var j := OddCancels(r, DELTA, 32, r * DELTA / WORD);
    }
  }

  function Two(n: nat): (r: nat)
    ensures r > 0
  {
    if n == 0 then 1 else 2 * Two(n - 1)
  }

  lemma TwoValues()
    ensures Two(32) == WORD
  {
    assert Two(8) == 256;
    assert Two(16) == 0x1_0000;
    assert Two(24) == 0x100_0000;
  }

  /** An odd factor does not help divisibility by a power of two. */
  lemma {:induction false} OddCancels(r: nat, d: nat, n: nat, k: nat) returns (j: nat)
    requires d % 2 == 1 && r * d == k * Two(n)
    ensures r == j * Two(n)
  {
    if n == 0 {
      j := r;
    } else {
      var half := Two(n - 1);
      Double(k, half);
      EvenFactor(r, d, k * half);
      j := OddCancels(r / 2, d, n - 1, k);
      Double(j, half);
    }
  }

  lemma Double(k: nat, h: nat)
    ensures k * (2 * h) == 2 * (k * h)
  {
  }

  lemma EvenFactor(r: nat, d: nat, h: nat)
    requires d % 2 == 1 && r * d == 2 * h
    ensures r % 2 == 0 && r / 2 * d == h
  {
    OddTimesOdd(r, d);
    EvenHalf(r, d);
  }

  lemma OddTimesOdd(r: nat, d: nat)
    ensures r % 2 == 1 && d % 2 == 1 ==> r * d % 2 == 1
  {
    if r % 2 == 1 && d % 2 == 1 {
      var x, y := r / 2, d / 2;
      OddProduct(x, y);
      assert 2 * x + 1 == r && 2 * y + 1 == d;
      OddNumber(r * d, 2 * x * y + x + y);
    }
  }

  lemma OddNumber(n: nat, k: nat)
    requires n == 2 * k + 1
    ensures n % 2 == 1
  {
  }

  lemma EvenHalf(r: nat, d: nat)
    ensures r % 2 == 0 ==> r * d == 2 * (r / 2 * d)
  {
    if r % 2 == 0 {
      Double(d, r / 2);
    }
  }

  lemma OddProduct(x: nat, y: nat)
    ensures (2 * x + 1) * (2 * y + 1) == 2 * (2 * x * y + x + y) + 1
  {
  }

  // ---------------------------------------------------------------- in place

  /** encrypt: q forward passes over the words, rewriting each in place. */
  method Encrypt(key: Key, data: array<Word>)
    requires 0 < data.Length < WORD
    modifies data
    ensures data[..] == EncWords(Mx(key), old(data[..]))
  {
    hide Mix, EncStep, SumAt;
    var n := data.Length - 1;
    if n >= 1 {
      var q := 6 + 52 / (n + 1);
      var z: Word := data[n];
      var sum: Word := 0;
      ghost var r := 0;
      SumZero();
      while q > 0
        invariant 0 <= q && r + q == Rounds(n + 1)
        invariant sum == SumAt(r) && z == data[n]
        invariant data[..] == EncRounds(Mx(key), old(data[..]), r)
      {
        q := q - 1;
        SumNext(r);
        sum := (sum + DELTA) % WORD;
        r := r + 1;
        z := EncryptPass(key, sum, data, z);
      }
    }
  }

  /** One forward pass; z carries the word before the current one. */
  method EncryptPass(key: Key, sum: Word, data: array<Word>, z0: Word) returns (z: Word)
    requires 2 <= data.Length && z0 == data[data.Length - 1]
    modifies data
    ensures data[..] == EncTo(Mx(key), sum, old(data[..]), data.Length)
    ensures z == data[data.Length - 1]
  {
    hide Mix;
    ghost var d := data[..];
    var n := data.Length - 1;
    z := z0;
    for p := 0 to n
      invariant data[..] == EncTo(Mx(key), sum, d, p)
      invariant z == Before(data[..], p)
    {
      var y := data[p + 1];
      data[p] := (data[p] + Mix(key, y, z, sum, p)) % WORD;
      z := data[p];
    }
    var y := data[0];
    data[n] := (data[n] + Mix(key, y, z, sum, n)) % WORD;
    z := data[n];
  }

  /** decrypt: backward passes until the sum has counted down to zero. */
  method Decrypt(key: Key, data: array<Word>)
    requires 0 < data.Length < WORD
    modifies data
    ensures data[..] == DecWords(Mx(key), old(data[..]))
  {
    hide Mix, DecStep, DecFrom, SumAt;
    var n := data.Length - 1;
    if n >= 1 {
      var y: Word := data[0];
      var q := 6 + 52 / (n + 1);
      var sum: Word := q * DELTA % WORD;
      ghost var r := q;
      SumIs(q, sum);
      while sum != 0
        invariant 0 <= r <= q < WORD && sum == SumAt(r) && y == data[0]
        invariant DecRounds(Mx(key), data[..], r) == DecRounds(Mx(key), old(data[..]), q)
        decreases r
      {
        SumPrevious(r);
        y := DecryptPass(key, sum, data, y);
        sum := (sum - DELTA) % WORD;
        r := r - 1;
      }
      if r > 0 { SumNonzero(r); }
    }
  }

  /** One backward pass; y carries the word after the current one. */
  method DecryptPass(key: Key, sum: Word, data: array<Word>, y0: Word) returns (y: Word)
    requires 2 <= data.Length && y0 == data[0]
    modifies data
    ensures data[..] == DecFrom(Mx(key), sum, old(data[..]), data.Length)
    ensures y == data[0]
  {
    hide Mix;
    ghost var d := data[..];
    var n := data.Length - 1;
    y := y0;
    for p := n downto 0
      invariant DecFrom(Mx(key), sum, data[..], p + 1) == DecFrom(Mx(key), sum, d, n + 1)
      invariant y == After(data[..], p)
    {
      var q := p + 1;
      var z := data[q - 1];
      ghost var now := data[..];
      data[q] := (data[q] - Mix(key, y, z, sum, q)) % WORD;
      assert data[..] == DecStep(Mx(key), sum, now, q);
      y := data[q];
    }
    var z := data[n];
    ghost var now := data[..];
    data[0] := (data[0] - Mix(key, y, z, sum, 0)) % WORD;
    assert data[..] == DecStep(Mx(key), sum, now, 0);
    y := data[0];
  }

  lemma SumZero()
    ensures SumAt(0) == 0
  {
  }

  lemma SumIs(q: nat, sum: Word)
    requires sum == q * DELTA % WORD
    ensures sum == SumAt(q)
  {
  }

  lemma SumNext(r: nat)
    ensures SumAt(r + 1) == (SumAt(r) + DELTA) % WORD
  {
    var a, t := r * DELTA, SumAt(r) + DELTA;
    Quotient(a + DELTA, WORD, a / WORD + t / WORD, t % WORD);
  }

  /** Counting down: a nonzero sum belongs to a positive round. */
  lemma SumPrevious(r: nat)
    ensures SumAt(r) != 0 ==> r > 0 && SumAt(r - 1) == (SumAt(r) - DELTA) % WORD
  {
    if SumAt(r) != 0 {
      var a, t := r * DELTA, SumAt(r) - DELTA;
      Quotient(a - DELTA, WORD, a / WORD + t / WORD, t % WORD);
    }
  }

  // ---------------------------------------------------------------- framing

  lemma BytesOfWord(b: seq<Byte>)
    requires |b| == 4
    ensures LittleBytes(LittleWord(b, 0)) == b
  {
    var b0: int, b1: int, b2: int, b3: int := b[0], b[1], b[2], b[3];
    var w := LittleWord(b, 0);
    assert w / 0x100 == b1 + 0x100 * b2 + 0x1_0000 * b3;
    assert w / 0x100 / 0x100 == b2 + 0x100 * b3;
  }

  /** A byte string seen as little-endian words, as the cast to uint32_t* does. */
  function ToWords(s: seq<Byte>): (w: seq<Word>)
    requires |s| % 4 == 0
    ensures |w| == |s| / 4
  {
    if s == [] then [] else [LittleWord(s[..4], 0)] + ToWords(s[4..])
  }

  function FromWords(w: seq<Word>): (s: seq<Byte>)
    ensures |s| == 4 * |w|
  {
    if w == [] then [] else LittleBytes(w[0]) + FromWords(w[1..])
  }

  lemma {:induction false} WordsRoundTrip(w: seq<Word>)
    ensures ToWords(FromWords(w)) == w
  {
    if w != [] {
      hide LittleBytes, LittleWord;
      var s := FromWords(w);
      assert s[..4] == LittleBytes(w[0]) && s[4..] == FromWords(w[1..]);
      WordsRoundTrip(w[1..]);
    }
  }

  lemma {:induction false} BytesRoundTrip(s: seq<Byte>)
    requires |s| % 4 == 0
    ensures FromWords(ToWords(s)) == s
  {
    if s != [] {
      hide LittleBytes, LittleWord;
      BytesOfWord(s[..4]);
      BytesRoundTrip(s[4..]);
      var w := ToWords(s);
      assert w[0] == LittleWord(s[..4], 0) && w[1..] == ToWords(s[4..]);
    }
  }

  /** The plaintext padded with zeros to whole words. */
  function Padded(text: seq<Byte>): (p: seq<Byte>)
    ensures |p| % 4 == 0 && text <= p && |text| <= |p| < |text| + 4
  {
    text + seq(Padding(|text|), _ => 0)
  }

  /** How many bytes a length lacks to whole words. */
  function Padding(n: nat): (r: nat)
    ensures r < 4 && (n + r) % 4 == 0
  {
    var q, m := n / 4, n % 4;
    assert n == 4 * q + m;
    if m == 0 then 0 else assert n + (4 - m) == 4 * (q + 1); 4 - m
  }

  /** What is encrypted: the padded words and, last, the length. */
  function Framed(text: seq<Byte>): (w: seq<Word>)
    requires |text| < WORD
    ensures |w| >= 1
  {
    ToWords(Padded(text)) + [|text|]
  }

  function Encrypted(key: Key, text: seq<Byte>): seq<Byte>
    requires |text| < WORD
  {
    FromWords(EncWords(Mx(key), Framed(text)))
  }

  /** What FastDecrypt makes of a string of at least one word. */
  function Decrypted(key: Key, data: seq<Byte>): Option<seq<Byte>>
    requires 4 <= |data| < WORD
  {
    var num := |data| / 4;
    var words := DecWords(Mx(key), ToWords(data[..4 * num]));
    var len := words[num - 1];
    if len <= |data| - 4 && len >= (|data| - 7) % WORD then Some(FromWords(words)[..len]) else None
  }

  /** The last word that decryption yields. */
  function LengthWord(key: Key, data: seq<Byte>): Word
    requires 4 <= |data|
  {
    DecWords(Mx(key), ToWords(data[..4 * (|data| / 4)]))[|data| / 4 - 1]
  }

  /** A string is accepted exactly when its last word is the length of a text whose frame is that long. */
  lemma AcceptedIff(key: Key, data: seq<Byte>)
    requires 4 <= |data| < WORD
    ensures Decrypted(key, data).Some? <==>
      LengthWord(key, data) + 4 <= |data| <= LengthWord(key, data) + 7 && |data| >= 7
    ensures Decrypted(key, data).Some? ==> |Decrypted(key, data).value| == LengthWord(key, data)
  {
    hide DecWords, ToWords, FromWords;
    if |data| < 7 {
      Quotient(|data| - 7, WORD, -1, |data| - 7 + WORD);
    } else {
      Quotient(|data| - 7, WORD, 0, |data| - 7);
    }
  }

  /**
   Encrypt then decrypt gives the plaintext back for every key and every plaintext but
   the empty one, which decrypt rejects because its lower length bound wraps.
   */
  lemma RoundTrip(key: Key, text: seq<Byte>)
    requires |text| + 8 < WORD
    ensures 4 <= |Encrypted(key, text)| < WORD
    ensures Decrypted(key, Encrypted(key, text)) == if text == [] then None else Some(text)
  {
    hide EncRounds, DecRounds, EncWords, DecWords, ToWords, FromWords;
    var w := Framed(text);
    WordsUndone(Mx(key), w);
    var data := Encrypted(key, text);
    var num := |data| / 4;
    assert num == |w| && data[..4 * num] == data;
    WordsRoundTrip(EncWords(Mx(key), w));
    assert w[num - 1] == |text|;
    FramedBytes(text);
    assert |data| == |Padded(text)| + 4;
  }

  lemma FramedBytes(text: seq<Byte>)
    requires |text| < WORD
    ensures |FromWords(Framed(text))| == |Padded(text)| + 4
    ensures FromWords(Framed(text))[..|text|] == text
  {
    FromWordsPush(ToWords(Padded(text)), |text|);
    BytesRoundTrip(Padded(text));
  }

  /** The frame: the text, zeros up to whole words, and the length, lowest byte first. */
  lemma FrameLayout(text: seq<Byte>)
    requires |text| < WORD
    ensures var b := FromWords(Framed(text));
      && |b| % 4 == 0 && |text| + 4 <= |b| < |text| + 8
      && b[..|text|] == text
      && (forall i | |text| <= i < |b| - 4 :: b[i] == 0)
      && LittleWord(b, |b| - 4) == |text|
  {
    hide FromWords, ToWords, LittleBytes, LittleWord;
    FromWordsPush(ToWords(Padded(text)), |text|);
    BytesRoundTrip(Padded(text));
    assert FromWords(Framed(text)) == Padded(text) + LittleBytes(|text|);
    WordAtEnd(Padded(text), |text|);
  }

  lemma WordAtEnd(p: seq<Byte>, w: Word)
    ensures LittleWord(p + LittleBytes(w), |p|) == w
  {
    hide LittleBytes;
    var b, tail := p + LittleBytes(w), LittleBytes(w);
    var at := |p|;
    assert b[at] == tail[0] && b[at + 1] == tail[1] && b[at + 2] == tail[2] && b[at + 3] == tail[3];
  }

  lemma {:induction false} FromWordsPush(w: seq<Word>, x: Word)
    ensures FromWords(w + [x]) == FromWords(w) + LittleBytes(x)
  {
    if w == [] {
      assert [x][1..] == [] && LittleBytes(x) + [] == [] + LittleBytes(x);
    } else {
      hide LittleBytes;
      FromWordsPush(w[1..], x);
      assert (w + [x])[1..] == w[1..] + [x];
      var head, rest := LittleBytes(w[0]), FromWords(w[1..]);
      assert head + (rest + LittleBytes(x)) == head + rest + LittleBytes(x);
    }
  }

  /** Room for the padding and the length word, and where that word goes. */
  method Resized(text: seq<Byte>) returns (inOut: seq<Byte>, lenIdx: nat)
    ensures |inOut| == 4 * (lenIdx + 1) && inOut[..4 * lenIdx] == Padded(text)
  {
    var inLen := |text|;
    var remainder := inLen % 4;
    if remainder != 0 {
      lenIdx := (inLen + 4 - remainder) / 4;
      inOut := text + seq(8 - remainder, _ => 0);
    } else {
      lenIdx := inLen / 4;
      inOut := text + seq(4, _ => 0);
    }
  }

  /** FastEncrypt: pad, store the length in the last word, encrypt the words in place. */
  method FastEncrypt(key: Key, text: seq<Byte>) returns (inOut: seq<Byte>)
    requires |text| + 8 < WORD
    ensures inOut == Encrypted(key, text)
  {
    hide EncWords, FromWords, LittleBytes, LittleWord, ToWords, Padded;
    var lenIdx;
    inOut, lenIdx := Resized(text);
    ToWordsPrefix(inOut, lenIdx);
    var words := ToWords(inOut);
    var data := new Word[lenIdx + 1](i requires 0 <= i < |words| => words[i]);
    data[lenIdx] := |text|;
    assert data[..] == words[..lenIdx] + [|text|];
    Encrypt(key, data);
    inOut := FromWords(data[..]);
  }

  lemma {:induction false} ToWordsPrefix(s: seq<Byte>, k: nat)
    requires |s| % 4 == 0 && 4 * k <= |s|
    ensures ToWords(s)[..k] == ToWords(s[..4 * k])
  {
    hide LittleWord;
    if k > 0 {
      ToWordsPrefix(s[4..], k - 1);
      assert s[..4 * k][4..] == s[4..][..4 * (k - 1)];
      assert s[..4 * k][..4] == s[..4];
      var w := ToWords(s);
      assert w == [LittleWord(s[..4], 0)] + ToWords(s[4..]);
      assert w[..k] == [LittleWord(s[..4], 0)] + ToWords(s[4..])[..k - 1];
    }
  }

  /** FastDecrypt: decrypt the whole words in place, then check and strip the length. */
  method FastDecrypt(key: Key, data: seq<Byte>) returns (r: Option<seq<Byte>>)
    requires 4 <= |data| < WORD
    ensures r == Decrypted(key, data)
  {
    hide DecRounds, FromWords, LittleBytes, LittleWord;
    var dataLen := |data|;
    var dataNum := dataLen / 4;
    var ws := ToWords(data[..4 * dataNum]);
    var words := new Word[dataNum](i requires 0 <= i < |ws| => ws[i]);
    assert words[..] == ws;
    Decrypt(key, words);
    var decryptedLen := words[dataNum - 1];
    if decryptedLen <= dataLen - 4 && decryptedLen >= (dataLen - 7) % WORD {
      return Some(FromWords(words[..])[..decryptedLen]);
    }
    return None;
  }
}
