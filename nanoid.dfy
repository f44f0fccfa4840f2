/** `generateNanoId` (script.js:37-44): a token of a given length whose characters
    are drawn from a 62-character alphanumeric alphabet. The random draws
    `Math.floor(Math.random() * 62)` are supplied as a sequence of indices. */
module NanoId {

  const Upper := "ABCDEFGHIJKLMNOPQRSTUVWXYZ"
  const Lower := "abcdefghijklmnopqrstuvwxyz"
  const Digits := "0123456789"

  /** The page's alphabet `ABC...XYZabc...xyz0123456789`, written as its three runs. */
  const Alphabet := Upper + Lower + Digits

  /** Length used when no length is given: storage file names. */
  const DefaultLength := 21

  /** One random draw: an index into the alphabet. */
  type Draw = k: int | 0 <= k < 62

  predicate IsAlphanumeric(c: char)
  {
    'A' <= c <= 'Z' || 'a' <= c <= 'z' || '0' <= c <= '9'
  }

  /** Position-wise description of the alphabet: upper case, lower case, digits. */
  function AlphabetChar(k: Draw): char
  {
    if k < 26 then ('A' as int + k) as char
    else if k < 52 then ('a' as int + (k - 26)) as char
    else ('0' as int + (k - 52)) as char
  }

  lemma UpperAt(k: nat)
    requires k < 26
    ensures |Upper| == 26 && Upper[k] == ('A' as int + k) as char
  {
  }

  lemma LowerAt(k: nat)
    requires k < 26
    ensures |Lower| == 26 && Lower[k] == ('a' as int + k) as char
  {
  }

  lemma DigitAt(k: nat)
    requires k < 10
    ensures |Digits| == 10 && Digits[k] == ('0' as int + k) as char
  {
  }

  /** The literal alphabet holds 62 characters, the k-th being `AlphabetChar(k)`. */
  lemma AlphabetAt(k: Draw)
    ensures |Alphabet| == 62 && Alphabet[k] == AlphabetChar(k)
  {
    if k < 26 {
      UpperAt(k); LowerAt(0); DigitAt(0);
    } else if k < 52 {
      UpperAt(0); LowerAt(k - 26); DigitAt(0);
    } else {
      UpperAt(0); LowerAt(0); DigitAt(k - 52);
    }
  }

  lemma InUpper(c: char)
    requires c in Upper
    ensures 'A' <= c <= 'Z'
  {
    var k :| 0 <= k < |Upper| && Upper[k] == c;
    UpperAt(k);
  }

  lemma InLower(c: char)
    requires c in Lower
    ensures 'a' <= c <= 'z'
  {
    var k :| 0 <= k < |Lower| && Lower[k] == c;
    LowerAt(k);
  }

  lemma InDigits(c: char)
    requires c in Digits
    ensures '0' <= c <= '9'
  {
    var k :| 0 <= k < |Digits| && Digits[k] == c;
    DigitAt(k);
  }

  /** Every character of the alphabet is an ASCII letter or digit. */
  lemma InAlphabetIsAlphanumeric(c: char)
    requires c in Alphabet
    ensures IsAlphanumeric(c)
  {
    assert c in Upper || c in Lower || c in Digits;
    if c in Upper {
      InUpper(c);
    } else if c in Lower {
      InLower(c);
    } else {
      InDigits(c);
    }
  }

  /** Every ASCII letter or digit is in the alphabet. */
  lemma AlphanumericInAlphabet(c: char)
    requires IsAlphanumeric(c)
    ensures c in Alphabet
  {
    var k: Draw :=
      if 'A' <= c <= 'Z' then c as int - 'A' as int
      else if 'a' <= c <= 'z' then c as int - 'a' as int + 26
      else c as int - '0' as int + 52;
    AlphabetAt(k);
  }

  /** The alphabet is exactly the ASCII letters and digits. */
  lemma AlphabetIsAlphanumeric(c: char)
    ensures c in Alphabet <==> IsAlphanumeric(c)
  {
    if c in Alphabet {
      InAlphabetIsAlphanumeric(c);
    }
    if IsAlphanumeric(c) {
      AlphanumericInAlphabet(c);
    }
  }

  /** No character appears twice in the alphabet, so every draw selects a distinct
      character and each character is as likely as its single index. */
  lemma AlphabetDistinct(i: Draw, j: Draw)
    requires Alphabet[i] == Alphabet[j]
    ensures i == j
  {
    AlphabetAt(i);
    AlphabetAt(j);
  }

  /** The token spelled by a sequence of draws, one character per draw. */
  function Spell(draws: seq<Draw>): (id: string)
    ensures |id| == |draws|
    ensures forall i | 0 <= i < |draws| :: id[i] == Alphabet[draws[i]]
  {
    AlphabetAt(0);
    if draws == [] then ""
    else Spell(draws[..|draws| - 1]) + [Alphabet[draws[|draws| - 1]]]
  }

  /** Every character of a spelled token is a letter or a digit. */
  lemma SpellIsAlphanumeric(draws: seq<Draw>, i: nat)
    requires i < |draws|
    ensures IsAlphanumeric(Spell(draws)[i])
  {
    var k := draws[i];
    AlphabetAt(k);
    assert Spell(draws)[i] == AlphabetChar(k);
    AlphabetIsAlphanumeric(AlphabetChar(k));
  }

  /** Different draws spell different tokens. */
  lemma SpellInjective(a: seq<Draw>, b: seq<Draw>)
    requires Spell(a) == Spell(b)
    ensures a == b
  {
    forall i | 0 <= i < |a|
      ensures a[i] == b[i]
    {
      AlphabetDistinct(a[i], b[i]);
    }
  }

  /** `generateNanoId(length)`: appends one alphabet character per draw. */
  method GenerateNanoId(length: nat, draws: seq<Draw>) returns (id: string)
    requires length <= |draws|
    ensures id == Spell(draws[..length])
    ensures |id| == length
    ensures forall i | 0 <= i < |id| :: IsAlphanumeric(id[i])
  {
    AlphabetAt(0);
    id := "";
    for i := 0 to length
      invariant id == Spell(draws[..i])
    {
      assert draws[..i + 1][..i] == draws[..i];
      id := id + [Alphabet[draws[i]]];
    }
    forall i | 0 <= i < |id|
      ensures IsAlphanumeric(id[i])
    {
      SpellIsAlphanumeric(draws[..length], i);
    }
  }
}
