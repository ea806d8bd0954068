/**
 * The four character categories a password may be asked to contain, and the
 * fixed ASCII alphabet of each (`CharacterType` and its `characters` property).
 */
module CharacterTypes {

  datatype CharacterType = Digits | Uppercase | Lowercase | SpecialCharacters

  /** Reference definition of the alphabets, as inclusive codepoint ranges. */
  predicate InAlphabet(t: CharacterType, cp: int)
  {
    match t
    case Digits => 48 <= cp <= 57
    case Uppercase => 65 <= cp <= 90
    case Lowercase => 97 <= cp <= 122
    case SpecialCharacters =>
      (33 <= cp <= 47) || (58 <= cp <= 64) || (91 <= cp <= 96) || (123 <= cp <= 126)
  }

  /** The characters whose codepoints are `lo`, `lo + 1`, ..., `hi`, in that order. */
  function CodepointRange(lo: nat, hi: nat): (r: seq<char>)
    requires lo <= hi + 1 && hi < 128
    ensures |r| == hi + 1 - lo
    ensures forall i :: 0 <= i < |r| ==> r[i] as int == lo + i
  {
    seq(hi + 1 - lo, i requires 0 <= i < hi + 1 - lo => (lo + i) as char)
  }

  /** A character is in a codepoint range exactly when its codepoint lies between the bounds. */
  lemma CodepointRangeMembers(lo: nat, hi: nat)
    requires lo <= hi + 1 && hi < 128
    ensures forall c: char :: c in CodepointRange(lo, hi) <==> lo <= c as int <= hi
  {
    forall c: char | lo <= c as int <= hi
      ensures c in CodepointRange(lo, hi)
    {
      assert CodepointRange(lo, hi)[c as int - lo] == c;
    }
  }

  /** `characters`: the alphabet of a character type, as a string in codepoint order. */
  function Characters(t: CharacterType): seq<char>
  {
    match t
    case Digits => CodepointRange(48, 57)
    case Uppercase => CodepointRange(65, 90)
    case Lowercase => CodepointRange(97, 122)
    case SpecialCharacters =>
      CodepointRange(33, 47) + CodepointRange(58, 64) + CodepointRange(91, 96) + CodepointRange(123, 126)
  }

  /** The alphabet of `t` holds exactly the characters whose codepoints lie in `t`'s ranges. */
  lemma CharactersMembers(t: CharacterType)
    ensures forall c: char :: c in Characters(t) <==> InAlphabet(t, c as int)
  {
    match t
    case Digits => CodepointRangeMembers(48, 57);
    case Uppercase => CodepointRangeMembers(65, 90);
    case Lowercase => CodepointRangeMembers(97, 122);
    case SpecialCharacters =>
      CodepointRangeMembers(33, 47);
      CodepointRangeMembers(58, 64);
      CodepointRangeMembers(91, 96);
      CodepointRangeMembers(123, 126);
  }

  /** The alphabets hold 10, 26, 26 and 32 characters. */
  lemma CharacterCounts()
    ensures |Characters(Digits)| == 10
    ensures |Characters(Uppercase)| == 26
    ensures |Characters(Lowercase)| == 26
    ensures |Characters(SpecialCharacters)| == 32
  {
  }

  /** Every alphabet is listed in strictly ascending codepoint order, so no character repeats. */
  lemma CharactersAscending(t: CharacterType, i: int, j: int)
    requires 0 <= i < j < |Characters(t)|
    ensures Characters(t)[i] < Characters(t)[j]
  {
  }

  /** Distinct character types have no character in common. */
  lemma CharactersDisjoint(t: CharacterType, u: CharacterType, c: char)
    requires t != u && c in Characters(t)
    ensures c !in Characters(u)
  {
    CharactersMembers(t);
    CharactersMembers(u);
  }
}
