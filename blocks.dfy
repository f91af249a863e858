/**
 * Blocks: the `Block` record of blockchain.js and the digest that seals it.
 *
 * A block's hash is SHA-256 applied to the string concatenation
 *   String(index) + previousHash + timestamp + JSON.stringify(data)
 * SHA-256 and JSON.stringify are foreign code, so they are not defined here:
 * they are supplied as a `Hashing` value, and every property below holds for
 * every choice of the two functions.
 */
module Blocks {

  /** The JSON values a block's `data` can hold (numbers restricted to integers). */
  datatype Json =
    | JNull
    | JBool(b: bool)
    | JNumber(n: int)
    | JString(s: string)
    | JArray(items: seq<Json>)
    | JObject(members: seq<(string, Json)>)

  /** The two foreign functions the digest is built from. */
  datatype Hashing = Hashing(sha256: string -> string, stringify: Json -> string)

  /** A block is an immutable value: index, timestamp, data, link and own hash. */
  datatype Block = Block(index: int, timestamp: string, data: Json, previousHash: string, hash: string)
  {
    /** The digest of this block's content fields; the stored `hash` plays no part. */
    function CalculateHash(h: Hashing): string
    {
      h.sha256(Preimage(index, previousHash, timestamp, data, h))
    }

    /** The block's stored hash reproduces its recomputed digest. */
    predicate IsSealed(h: Hashing)
    {
      hash == CalculateHash(h)
    }
  }

  /** The decimal digit for 0..9. */
  function DigitChar(d: nat): (c: char)
    requires d < 10
    ensures '0' <= c <= '9'
    ensures c as int - '0' as int == d
  {
    ('0' as int + d) as char
  }

  /** The decimal digits of a natural number, most significant first, without leading zeros. */
  function NatDigits(n: nat): (s: string)
    ensures |s| >= 1
    ensures forall k :: 0 <= k < |s| ==> '0' <= s[k] <= '9'
    ensures s[0] == '0' ==> n == 0
    decreases n
  {
    if n < 10 then [DigitChar(n)] else NatDigits(n / 10) + [DigitChar(n % 10)]
  }

  /** The value of a string of decimal digits (0 for the empty string). */
  function DigitsValue(s: string): nat
    requires forall k :: 0 <= k < |s| ==> '0' <= s[k] <= '9'
    decreases |s|
  {
    if s == [] then 0
    else DigitsValue(s[..|s| - 1]) * 10 + (s[|s| - 1] as int - '0' as int)
  }

  /** Reading back the digits of `n` gives `n`: the number formatting loses nothing. */
  lemma {:induction false} NatDigitsRoundTrip(n: nat)
    ensures DigitsValue(NatDigits(n)) == n
    decreases n
  {
    if n >= 10 {
      NatDigitsRoundTrip(n / 10);
      var s := NatDigits(n);
      assert s[..|s| - 1] == NatDigits(n / 10);
    }
  }

  /**
   * JavaScript's conversion of an integer-valued number to a string, used when
   * `index + previousHash` is evaluated: decimal digits, with a leading '-' when negative.
   * It agrees with JavaScript for integers of magnitude at most 2^53, the range in
   * which a JavaScript number holds every integer exactly.
   */
  function DecimalString(n: int): (s: string)
    ensures |s| >= 1
    ensures n < 0 <==> s[0] == '-'
    ensures n >= 0 ==> s == NatDigits(n)
    ensures n < 0 ==> s[1..] == NatDigits(-n)
  {
    if n < 0 then "-" + NatDigits(-n) else NatDigits(n)
  }

  /** Distinct indices are formatted as distinct strings. */
  lemma {:induction false} DecimalStringInjective(m: int, n: int)
    requires DecimalString(m) == DecimalString(n)
    ensures m == n
  {
    var a, b := if m < 0 then -m else m, if n < 0 then -n else n;
    assert NatDigits(a) == NatDigits(b) by {
      if m < 0 {
        assert DecimalString(m)[1..] == DecimalString(n)[1..];
      }
    }
    NatDigitsRoundTrip(a);
    NatDigitsRoundTrip(b);
    assert a == b;
  }

  /** The string that SHA-256 is applied to: the four fields concatenated with no separator. */
  function Preimage(index: int, previousHash: string, timestamp: string, data: Json, h: Hashing): (p: string)
    ensures DecimalString(index) + previousHash <= p
    ensures |p| == |DecimalString(index)| + |previousHash| + |timestamp| + |h.stringify(data)|
  {
    DecimalString(index) + previousHash + timestamp + h.stringify(data)
  }

  /** Overwriting the stored hash does not change the recomputed digest. */
  lemma CalculateHashIgnoresHash(b: Block, h: Hashing, x: string)
    ensures b.(hash := x).CalculateHash(h) == b.CalculateHash(h)
  {
  }

  /**
   * `new Block(index, timestamp, data, previousHash)`: the fields as given and the
   * hash computed from them; `previousHash` defaults to the empty string.
   */
  function NewBlock(index: int, timestamp: string, data: Json, h: Hashing, previousHash: string := ""): (b: Block)
    ensures b.index == index && b.timestamp == timestamp && b.data == data
    ensures b.previousHash == previousHash
    ensures b.hash == h.sha256(DecimalString(index) + previousHash + timestamp + h.stringify(data))
    ensures b.IsSealed(h)
  {
    var unsealed := Block(index, timestamp, data, previousHash, "");
    unsealed.(hash := unsealed.CalculateHash(h))
  }

  /**
   * The preimage is not injective in the fields: index 1 with previous hash "23"
   * and index 12 with previous hash "3" give the same string, hence the same hash
   * whatever SHA-256 and JSON.stringify are.
   */
  lemma PreimageCollision(h: Hashing, timestamp: string, data: Json)
    ensures NewBlock(1, timestamp, data, h, "23") != NewBlock(12, timestamp, data, h, "3")
    ensures NewBlock(1, timestamp, data, h, "23").hash == NewBlock(12, timestamp, data, h, "3").hash
  {
    assert DecimalString(1) == "1";
    assert NatDigits(12) == NatDigits(1) + [DigitChar(2)];
    assert DecimalString(12) == "12";
    assert DecimalString(1) + "23" == DecimalString(12) + "3";
  }
}
