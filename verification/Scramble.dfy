/** The challenge responses, over hash functions left abstract. */
module Scramble {
  import opened Octets
  import Bits

  function XorNat(a: nat, b: nat): nat
  {
    if a == 0 then b else if b == 0 then a
    else 2 * XorNat(a / 2, b / 2) + if a % 2 == b % 2 then 0 else 1
  }

  lemma {:induction false} XorBound(a: nat, b: nat, k: nat, p: nat)
    requires a < p && b < p && p == Pow(k)
    ensures XorNat(a, b) < p
    decreases k
  {
    if a != 0 && b != 0 {
      XorBound(a / 2, b / 2, k - 1, Pow(k - 1));
    }
  }

  function Pow(k: nat): nat {
    if k == 0 then 1 else 2 * Pow(k - 1)
  }

  lemma {:induction false} XorCancels(a: nat, b: nat)
    ensures XorNat(XorNat(a, b), b) == a
    decreases a + b
  {
    if a == 0 {
      XorSelf(b);
    } else if b != 0 {
      XorCancels(a / 2, b / 2);
      var x := XorNat(a, b);
      assert x / 2 == XorNat(a / 2, b / 2);
      assert x % 2 == if a % 2 == b % 2 then 0 else 1;
      XorUnfold(x, b);
    }
  }

  lemma {:induction false} XorSelf(a: nat)
    ensures XorNat(a, a) == 0
  {
    if a != 0 {
      XorSelf(a / 2);
    }
  }

  /** The recursive equation also when an argument is zero. */
  lemma {:induction false} XorUnfold(a: nat, b: nat)
    ensures XorNat(a, b) == 2 * XorNat(a / 2, b / 2) + if a % 2 == b % 2 then 0 else 1
  {
  }

  function Xor(a: Byte, b: Byte): Byte
  {
    assert Pow(8) == 256;
    XorBound(a, b, 8, 256);
    XorNat(a, b)
  }

  function XorBytes(a: Octets, b: Octets): (r: Octets)
    requires |a| == |b|
    ensures |r| == |a|
  {
    if a == [] then [] else [Xor(a[0], b[0])] + XorBytes(a[1..], b[1..])
  }

  lemma {:induction false} XorBytesCancel(a: Octets, b: Octets)
    requires |a| == |b|
    ensures XorBytes(XorBytes(a, b), b) == a
  {
    if a != [] {
      XorCancels(a[0], b[0]);
      XorBytesCancel(a[1..], b[1..]);
      assert XorBytes(a, b)[1..] == XorBytes(a[1..], b[1..]);
    }
  }

  /** Exclusive or is bit by bit. */
  lemma {:induction false} XorBit(a: nat, b: nat, k: nat)
    ensures Bits.Bit(XorNat(a, b), k) <==> Bits.Bit(a, k) != Bits.Bit(b, k)
    decreases k
  {
    XorUnfold(a, b);
    if k > 0 {
      XorBit(a / 2, b / 2, k - 1);
    }
  }

  /** And byte by byte. */
  lemma {:induction false} XorBytesAt(a: Octets, b: Octets, i: nat)
    requires |a| == |b| && i < |a|
    ensures XorBytes(a, b)[i] == XorNat(a[i], b[i])
  {
    if i > 0 {
      XorBytesAt(a[1..], b[1..], i - 1);
    }
  }

  /** Hashes have a fixed length; a function of another length is cut or padded to it. */
  function Digest(h: Octets -> Octets, n: nat, b: Octets): (d: Octets)
    ensures |d| == n && (|h(b)| == n ==> d == h(b))
  {
    var d := h(b);
    if |d| >= n then d[..n] else d + seq(n - |d|, _ => 0)
  }

  function Cut20(salt: Octets): Octets {
    if |salt| > 20 then salt[..20] else salt
  }

  /** SHA1(password) XOR SHA1(salt + SHA1(SHA1(password))). */
  function NativeScramble(sha1: Octets -> Octets, password: Octets, salt: Octets): (r: Octets)
    ensures |r| == if password == [] then 0 else 20
  {
    if password == [] then [] else
      var h1 := Digest(sha1, 20, password);
      var h2 := Digest(sha1, 20, h1);
      XorBytes(h1, Digest(sha1, 20, Cut20(salt) + h2))
  }

  /** SHA256(password) XOR SHA256(SHA256(SHA256(password)) + salt). */
  function Sha2Scramble(sha256: Octets -> Octets, password: Octets, salt: Octets): (r: Octets)
    ensures |r| == if password == [] then 0 else 32
  {
    if password == [] then [] else
      var h1 := Digest(sha256, 32, password);
      var h2 := Digest(sha256, 32, h1);
      XorBytes(h1, Digest(sha256, 32, h2 + Cut20(salt)))
  }

  /** The server's check: from the stored token alone it recovers a preimage of that token. */
  predicate NativeAccepts(sha1: Octets -> Octets, token: Octets, salt: Octets, proof: Octets) {
    var nonce := if |salt| > 20 then salt[..20] else salt;
    |proof| == 20 && Digest(sha1, 20, XorBytes(proof, Digest(sha1, 20, nonce + token))) == token
  }

  predicate Sha2Accepts(sha256: Octets -> Octets, token: Octets, salt: Octets, proof: Octets) {
    var nonce := if |salt| > 20 then salt[..20] else salt;
    |proof| == 32 && Digest(sha256, 32, XorBytes(proof, Digest(sha256, 32, token + nonce))) == token
  }

  /** The scrambles pass the check of a server that stores the double hash of the same password. */
  lemma ServerAccepts(sha1: Octets -> Octets, sha256: Octets -> Octets, password: Octets, salt: Octets)
    requires password != []
    ensures NativeAccepts(sha1, Digest(sha1, 20, Digest(sha1, 20, password)), salt,
                          NativeScramble(sha1, password, salt))
    ensures Sha2Accepts(sha256, Digest(sha256, 32, Digest(sha256, 32, password)), salt,
                        Sha2Scramble(sha256, password, salt))
  {
    hide Digest;
    var h1 := Digest(sha1, 20, password);
    XorBytesCancel(h1, Digest(sha1, 20, Cut20(salt) + Digest(sha1, 20, h1)));
    var g1 := Digest(sha256, 32, password);
    XorBytesCancel(g1, Digest(sha256, 32, Digest(sha256, 32, g1) + Cut20(salt)));
  }

  /** XOR with the nonce repeated over the password. */
  function Obfuscate(plain: Octets, salt: Octets): (r: Octets)
    requires salt != []
    ensures |r| == |plain|
  {
    seq(|plain|, i requires 0 <= i < |plain| => Xor(plain[i], salt[i % |salt|]))
  }

  /** The server undoes it with the same nonce. */
  lemma ObfuscateTwice(plain: Octets, salt: Octets)
    requires salt != []
    ensures Obfuscate(Obfuscate(plain, salt), salt) == plain
  {
    forall i | 0 <= i < |plain| ensures Obfuscate(Obfuscate(plain, salt), salt)[i] == plain[i] {
      XorCancels(plain[i], salt[i % |salt|]);
    }
  }
}
