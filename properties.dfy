/**
 * What the guards of `generate()` mean. With the empty-types guard set aside,
 * the configurations `generate()` rejects are exactly those that no password
 * satisfies. The error it reports is fixed by the order of the guards, up to
 * which type is named.
 */
module GeneratorProperties {
  import opened Wrappers
  import opened CharacterTypes
  import opened Generator

  /** A character is available exactly when some selected type's range holds it and it is not excluded. */
  lemma AvailableCharactersMembers(g: RandomPasswordGenerator, c: char)
    ensures c in AvailableCharacters(g) <==>
      (exists t :: t in g.characterTypes && InAlphabet(t, c as int)) && c !in Excluded(g)
  {
    AllCharactersMembers(g.characterTypes, c);
    CharactersMembers(Digits);
    CharactersMembers(Uppercase);
    CharactersMembers(Lowercase);
    CharactersMembers(SpecialCharacters);
  }

  /** If the last character is the only one of type `t` in `pw`, then it belongs to `t`. */
  lemma LastCovers(pw: seq<char>, t: CharacterType)
    requires |pw| > 0 && Covers(pw, t) && !Covers(pw[..|pw| - 1], t)
    ensures pw[|pw| - 1] in Characters(t)
  {
  }

  /** At most one type loses its coverage when the last character is dropped. */
  lemma AtMostOneLost(pw: seq<char>, lost: set<CharacterType>)
    requires |pw| > 0
    requires forall u :: u in lost ==> Covers(pw, u) && !Covers(pw[..|pw| - 1], u)
    ensures |lost| <= 1
  {
    if lost != {} {
      var t :| t in lost;
      LastCovers(pw, t);
      forall u | u in lost
        ensures u == t
      {
        LastCovers(pw, u);
        if u != t {
          CharactersDisjoint(t, u, pw[|pw| - 1]);
        }
      }
      assert lost == {t};
    }
  }

  /**
   * The alphabets are disjoint, so each character covers at most one type, and a
   * sequence covering every type of `types` has at least `|types|` characters.
   */
  lemma {:induction false} CoverageNeedsLength(types: set<CharacterType>, pw: seq<char>)
    requires forall t :: t in types ==> Covers(pw, t)
    ensures |types| <= |pw|
    decreases |pw|
  {
    if pw == [] {
      assert forall t :: t in types ==> !Covers(pw, t);
    } else {
      var rest := pw[..|pw| - 1];
      var lost := set t | t in types && !Covers(rest, t);
      var kept := types - lost;
      assert forall t :: t in kept ==> Covers(rest, t);
      CoverageNeedsLength(kept, rest);
      AtMostOneLost(pw, lost);
      assert types == kept + lost && kept !! lost;
    }
  }

  /** Some available character of type `t`. */
  ghost function SomeAvailable(t: CharacterType, available: set<char>): (c: char)
    requires HasAvailable(t, available)
    ensures c in Characters(t) && c in available
  {
    var c :| c in Characters(t) && c in available; c
  }

  /** Some choice of one available character per type covers every type (the coverage pass can succeed). */
  ghost function CoverageWitness(types: set<CharacterType>, available: set<char>): (r: seq<char>)
    requires forall t :: t in types ==> HasAvailable(t, available)
    ensures Drawn(r, types, available)
    decreases types
  {
    if types == {} then []
    else
      var t :| t in types;
      var c := SomeAvailable(t, available);
      var rest := CoverageWitness(types - {t}, available);
      DrawnStep(rest, types - {t}, available, t, c);
      assert (types - {t}) + {t} == types;
      rest + [c]
  }

  /**
   * `generate()` succeeds exactly when at least one type is selected and some
   * password of the requested length uses only available characters and covers
   * every selected type.
   */
  lemma CanGenerateIffPasswordExists(g: RandomPasswordGenerator)
    ensures CanGenerate(g) <==> g.characterTypes != {} && exists pw :: IsPassword(g, pw)
  {
    var available := AvailableCharacters(g);
    if CanGenerate(g) {
      var coverage := CoverageWitness(g.characterTypes, available);
      var a :| a in available;
      var fill := seq(g.length - |g.characterTypes|, _ => a);
      CoverageAndFill(g, coverage, fill);
      assert IsPassword(g, coverage + fill);
    }
    if g.characterTypes != {} && exists pw :: IsPassword(g, pw) {
      var pw :| IsPassword(g, pw);
      CoverageNeedsLength(g.characterTypes, pw);
      assert pw[0] in available;
      forall t | t in g.characterTypes
        ensures HasAvailable(t, available)
      {
        CoveredIsAvailable(pw, available, t);
      }
    }
  }

  /** Every reported error belongs to a configuration that `generate()` cannot satisfy. */
  lemma ReportedErrorMeansInfeasible(g: RandomPasswordGenerator, e: RandomPasswordGeneratorError)
    requires IsReportedError(g, e)
    ensures !CanGenerate(g)
  {
  }

  /** Every configuration that `generate()` cannot satisfy has an error to report. */
  lemma InfeasibleHasReportedError(g: RandomPasswordGenerator)
    requires !CanGenerate(g)
    ensures exists e :: IsReportedError(g, e)
  {
    if g.length < |g.characterTypes| {
      assert IsReportedError(g, InsufficientLength);
    } else if g.characterTypes == {} {
      assert IsReportedError(g, EmptyCharacterTypes);
    } else if AvailableCharacters(g) == {} {
      assert IsReportedError(g, EmptyCharacterSet);
    } else {
      var t :| t in g.characterTypes && !HasAvailable(t, AvailableCharacters(g));
      assert IsReportedError(g, NoAvailableCharactersForType(t));
    }
  }

  /**
   * Repeated calls with the same configuration report the same kind of error;
   * only the type named by `noAvailableCharactersForType` may vary.
   */
  lemma ReportedErrorKindIsFixed(g: RandomPasswordGenerator, e1: RandomPasswordGeneratorError, e2: RandomPasswordGeneratorError)
    requires IsReportedError(g, e1) && IsReportedError(g, e2)
    ensures e1 == e2 || (e1.NoAvailableCharactersForType? && e2.NoAvailableCharactersForType?)
  {
  }

  /** When exactly one selected type has no available character, the error names that type. */
  lemma ReportedErrorNamesTheOnlyEmptyType(g: RandomPasswordGenerator, t: CharacterType, e: RandomPasswordGeneratorError)
    requires g.length >= |g.characterTypes| && AvailableCharacters(g) != {}
    requires t in g.characterTypes && !HasAvailable(t, AvailableCharacters(g))
    requires forall u :: u in g.characterTypes && u != t ==> HasAvailable(u, AvailableCharacters(g))
    ensures IsReportedError(g, e) <==> e == NoAvailableCharactersForType(t)
  {
  }
}
