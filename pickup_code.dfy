/** The pickup-code generator: six random bytes become six characters of the
    alphabet 0-9A-Z, character i being the alphabet letter at bytes[i] mod 36.
    The random source is not modelled; its six bytes are the input. */
module PickupCode {

  type Byte = b: int | 0 <= b < 256

  const PickupCodeLength: nat := 6

  const Alphabet: string := "0123456789ABCDEFGHIJKLMNOPQRSTUVWXYZ"

  /** A string the generator can produce. */
  predicate IsPickupCode(s: string)
  {
    |s| == PickupCodeLength && forall i :: 0 <= i < |s| ==> s[i] in Alphabet
  }

  /** The character the generator emits for one byte. */
  function CharFor(b: Byte): (c: char)
    ensures c in Alphabet
  {
    Alphabet[b % |Alphabet|]
  }

  /** The code generated from the given bytes. */
  function CodeFor(bytes: seq<Byte>): (code: string)
    requires |bytes| == PickupCodeLength
    ensures IsPickupCode(code)
  {
    seq(PickupCodeLength, i requires 0 <= i < PickupCodeLength => CharFor(bytes[i]))
  }

  /** The generator itself: a loop that appends one character per byte. */
  method GeneratePickupCode(bytes: seq<Byte>) returns (code: string)
    requires |bytes| == PickupCodeLength
    ensures |code| == PickupCodeLength
    ensures forall i :: 0 <= i < PickupCodeLength ==> code[i] == Alphabet[bytes[i] % 36]
    ensures code == CodeFor(bytes)
  {
    code := "";
    for i := 0 to PickupCodeLength
      invariant |code| == i
      invariant forall k :: 0 <= k < i ==> code[k] == Alphabet[bytes[k] % |Alphabet|]
    {
      code := code + [Alphabet[bytes[i] % |Alphabet|]];
    }
  }

  /** The alphabet is the ten digits followed by the 26 upper-case letters. */
  lemma AlphabetAt(n: nat)
    requires n < |Alphabet|
    ensures Alphabet[n] as int == if n < 10 then '0' as int + n else 'A' as int + n - 10
  {
  }

  /** The position of a character in the alphabet: the inverse of indexing. */
  function Position(c: char): (n: nat)
    requires c in Alphabet
    ensures n < |Alphabet| && Alphabet[n] == c
  {
    var k :| 0 <= k < |Alphabet| && Alphabet[k] == c;
    AlphabetAt(k);
    var n := if c as int <= '9' as int then c as int - '0' as int else c as int - 'A' as int + 10;
    assert n == k;
    n
  }

  /** No two positions of the alphabet hold the same character. */
  lemma PositionOfIndex(n: nat)
    requires n < |Alphabet|
    ensures Position(Alphabet[n]) == n
  {
  }

  /** The bytes, reduced mod 36, that a code was generated from. */
  function Decode(code: string): (bytes: seq<Byte>)
    requires IsPickupCode(code)
    ensures |bytes| == PickupCodeLength
    ensures forall i :: 0 <= i < PickupCodeLength ==> bytes[i] < |Alphabet|
  {
    seq(PickupCodeLength, i requires 0 <= i < PickupCodeLength => Position(code[i]))
  }

  /** Generating from a character's position gives the character back. */
  lemma CharForPosition(c: char)
    requires c in Alphabet
    ensures CharFor(Position(c)) == c
  {
    var n := Position(c);
    assert n % 36 == n;
    assert CharFor(n) == Alphabet[n];
  }

  /** Every string of six alphabet characters is a code the generator can
      produce: decoding it gives bytes that generate it again. */
  lemma DecodeThenGenerate(code: string)
    requires IsPickupCode(code)
    ensures CodeFor(Decode(code)) == code
  {
    var bytes := Decode(code);
    forall i | 0 <= i < PickupCodeLength
      ensures CodeFor(bytes)[i] == code[i]
    {
      CharForPosition(code[i]);
    }
    assert CodeFor(bytes) == code;
  }

  /** Decoding a generated code recovers each byte mod 36. */
  lemma GenerateThenDecode(bytes: seq<Byte>)
    requires |bytes| == PickupCodeLength
    ensures forall i :: 0 <= i < PickupCodeLength ==> Decode(CodeFor(bytes))[i] == bytes[i] % 36
  {
    forall i | 0 <= i < PickupCodeLength
      ensures Decode(CodeFor(bytes))[i] == bytes[i] % 36
    {
      PositionOfIndex(bytes[i] % |Alphabet|);
    }
  }

  /** Two byte strings give the same code exactly when they agree mod 36 at
      every position. */
  lemma SameCodeIffCongruent(a: seq<Byte>, b: seq<Byte>)
    requires |a| == PickupCodeLength && |b| == PickupCodeLength
    ensures CodeFor(a) == CodeFor(b) <==> forall i :: 0 <= i < PickupCodeLength ==> a[i] % 36 == b[i] % 36
  {
    if CodeFor(a) == CodeFor(b) {
      GenerateThenDecode(a);
      GenerateThenDecode(b);
    } else {
      var i :| 0 <= i < PickupCodeLength && CodeFor(a)[i] != CodeFor(b)[i];
    }
  }
}
