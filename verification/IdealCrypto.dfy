/** The laws asked of the cryptography can all hold at once: an instance of them. */
module IdealCrypto {
  import opened Prelude
  import opened Crypto
  import Hex
  import Utf8

  /** A code no word of which is the beginning of another. */
  function Mark(key: Bytes): Bytes {
    if key == [] then [0] else [1, key[0]] + Mark(key[1..])
  }

  lemma {:induction false} MarkIsPrefixFree(k: Bytes, l: Bytes, text: Bytes)
    requires Mark(k) <= text && Mark(l) <= text
    ensures k == l
  {
    if k != [] && l != [] {
      assert text[1] == Mark(k)[1] == k[0] && text[1] == Mark(l)[1] == l[0];
      assert Mark(k)[2..] == Mark(k[1..]) && Mark(l)[2..] == Mark(l[1..]);
      MarkIsPrefixFree(k[1..], l[1..], text[2..]);
      assert k == [k[0]] + k[1..] && l == [l[0]] + l[1..];
    } else {
      assert text[0] == Mark(k)[0] && text[0] == Mark(l)[0];
    }
  }

  function Lock(key: Bytes, nonce: Bytes, m: Bytes): Bytes {
    Mark(key) + m
  }

  function Unlock(key: Bytes, nonce: Bytes, ciphertext: Bytes): Option<Bytes> {
    if Mark(key) <= ciphertext then Some(ciphertext[|Mark(key)|..]) else None
  }

  function Derive(pass: string, salt: Bytes, logN: int, r: int, p: int): Bytes {
    Utf8.Encode(pass)
  }

  /** Keys are their own public halves, and texts are hexadecimal. */
  const INSTANCE := Crypto(
    m => m, (k, m) => Lock(k, [], m), (k, m) => Lock(k, [], m), (k, m, sig) => sig == Lock(k, [], m),
    k => k, k => Hex.Encode(k), t => Hex.Decode(t), k => Hex.Encode(k), t => Hex.Decode(t), k => Hex.Encode(k),
    (n, r, p) => true, Derive, Lock, Unlock)

  lemma LawsCanHold()
    ensures LawfulKeys(INSTANCE) && IdealCipher(INSTANCE)
  {
    forall k: Bytes ensures Hex.Decode(Hex.Encode(k)) == Some(k) {
      Hex.DecodeOfEncode(k);
    }
    forall p: string, q: string | Utf8.Encode(p) == Utf8.Encode(q) ensures p == q {
      Utf8.DecodeOfEncode(p);
      Utf8.DecodeOfEncode(q);
    }
    forall k: Bytes, n: Bytes, m: Bytes ensures Unlock(k, n, Lock(k, n, m)) == Some(m) {
      assert (Mark(k) + m)[|Mark(k)|..] == m;
    }
    forall k: Bytes, l: Bytes, n: Bytes, ct: Bytes | Unlock(k, n, ct).Some? && Unlock(l, n, ct).Some? ensures k == l {
      MarkIsPrefixFree(k, l, ct);
    }
  }
}
