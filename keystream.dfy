/**
  The keystream cursor: `crypto_init` and `crypto`.

  `crypto_init` keys AES in counter mode (NIST SP 800-38A, section 6.5) with the
  MD5 digest (RFC 1321) of the password.  Both algorithms live in foreign
  libraries, so the model takes the whole derivation as a parameter
  `kdf: Password -> Stream`: whatever it is, it is a deterministic function of
  the password, which is all the properties below rely on.
*/
module Keystream {
  import opened Common

  /** The keystream: the byte at every position of the counter-mode output. */
  type Stream = nat -> Byte

  type Password = Bytes

  /** MD5 of the password used as an AES-CTR key, as a function to its keystream. */
  type KeyDerivation = Password -> Stream

  /** `s` combined with the keystream bytes at positions `pos`, `pos + 1`, ... */
  function Xor(ks: Stream, pos: nat, s: Bytes): (r: Bytes)
    ensures |r| == |s|
    decreases |s|
  {
    if s == [] then [] else [s[0] ^ ks(pos)] + Xor(ks, pos + 1, s[1..])
  }

  /** Byte `i` of the output is byte `i` of the input combined with keystream byte `pos + i`. */
  lemma {:induction false} XorAt(ks: Stream, pos: nat, s: Bytes, i: nat)
    requires i < |s|
    ensures Xor(ks, pos, s)[i] == s[i] ^ ks(pos + i)
    decreases |s|
  {
    if i > 0 {
      XorAt(ks, pos + 1, s[1..], i - 1);
    }
  }

  /** Applying the same stretch of keystream twice gives the input back. */
  lemma {:induction false} XorInvolution(ks: Stream, pos: nat, s: Bytes)
    ensures Xor(ks, pos, Xor(ks, pos, s)) == s
    decreases |s|
  {
    if s != [] {
      var r := Xor(ks, pos, s);
      assert r[1..] == Xor(ks, pos + 1, s[1..]);
      XorInvolution(ks, pos + 1, s[1..]);
      assert s == [s[0]] + s[1..];
    }
  }

  /**
    Stream continuity: combining `a + b` in one call is combining `a`, then `b`
    at the position where `a` left off.
  */
  lemma {:induction false} XorSplit(ks: Stream, pos: nat, a: Bytes, b: Bytes)
    ensures Xor(ks, pos, a + b) == Xor(ks, pos, a) + Xor(ks, pos + |a|, b)
    decreases |a|
  {
    if a != [] {
      assert (a + b)[0] == a[0];
      assert (a + b)[1..] == a[1..] + b;
      XorSplit(ks, pos + 1, a[1..], b);
    } else {
      assert a + b == b;
    }
  }

  /**
    The cipher object `enigma`: a keystream and the position reached in it.
    Every call of `Crypt` consumes as many keystream bytes as its input has.
  */
  class Cipher {
    const stream: Stream
    var pos: nat

    /** `crypto_init(password)`: a fresh cipher at the start of the password's keystream. */
    constructor Init(kdf: KeyDerivation, password: Password)
      ensures stream == kdf(password)
      ensures pos == 0
    {
      stream := kdf(password);
      pos := 0;
    }

    /** `crypto(string)`: combine with the next `|s|` keystream bytes and move past them. */
    method Crypt(s: Bytes) returns (r: Bytes)
      modifies this
      ensures r == Xor(stream, old(pos), s)
      ensures pos == old(pos) + |s|
    {
      r := Xor(stream, pos, s);
      pos := pos + |s|;
    }
  }
}
