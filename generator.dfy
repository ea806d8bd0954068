/**
 * `RandomPasswordGenerator`: validates a configuration (length, character
 * types, excluded characters) and draws a password that has the requested
 * length, uses only permitted characters and contains at least one character
 * of every requested type.
 *
 * The random choices of the source (`Int.random` and `shuffled()`) are
 * modelled as nondeterministic choices (`:|`): every contract below holds for
 * every possible outcome of the random source.
 */
module Generator {
  import opened Wrappers
  import opened CharacterTypes

  datatype RandomPasswordGeneratorError =
    | InsufficientLength
    | EmptyCharacterTypes
    | EmptyCharacterSet
    | NoAvailableCharactersForType(characterType: CharacterType)

  /** The generator's configuration; the source's struct has only `let` fields. */
  datatype RandomPasswordGenerator = RandomPasswordGenerator(
    length: int,
    characterTypes: set<CharacterType>,
    excludedCharacters: Option<set<char>>)

  /** `init`: the optional excluded string becomes the optional set of its characters. */
  function Init(length: int, characterTypes: set<CharacterType>, excludedCharacters: Option<string>): (g: RandomPasswordGenerator)
    ensures g.length == length && g.characterTypes == characterTypes
    ensures g.excludedCharacters.Some? <==> excludedCharacters.Some?
    ensures forall c :: c in Excluded(g) <==> excludedCharacters.Some? && c in excludedCharacters.value
  {
    RandomPasswordGenerator(
      length, characterTypes,
      match excludedCharacters
      case None => None
      case Some(s) => Some(set c | c in s))
  }

  /** The excluded characters, with `nil` read as the empty set. */
  function Excluded(g: RandomPasswordGenerator): set<char>
  {
    match g.excludedCharacters
    case None => {}
    case Some(e) => e
  }

  /** The alphabet of `t` as a set when `t` is selected, and nothing otherwise. */
  function Selected(types: set<CharacterType>, t: CharacterType): set<char>
  {
    if t in types then set c | c in Characters(t) else {}
  }

  /**
   * The set of all characters of the selected types: the union of their
   * alphabets, written out over the four types.
   */
  function AllCharacters(types: set<CharacterType>): set<char>
  {
    Selected(types, Digits) + Selected(types, Uppercase) + Selected(types, Lowercase) + Selected(types, SpecialCharacters)
  }

  /** A character is in the union exactly when some selected type's alphabet holds it. */
  lemma AllCharactersMembers(types: set<CharacterType>, c: char)
    ensures c in AllCharacters(types) <==> exists t :: t in types && c in Characters(t)
  {
  }

  /** The characters a password may use: the selected alphabets minus the excluded characters. */
  function AvailableCharacters(g: RandomPasswordGenerator): set<char>
  {
    AllCharacters(g.characterTypes) - Excluded(g)
  }

  /** The characters of `chars` that are available, as the coverage pass filters a type's alphabet. */
  function Filter(chars: seq<char>, available: set<char>): (r: seq<char>)
    ensures |r| <= |chars|
    ensures forall c :: c in r <==> c in chars && c in available
  {
    if chars == [] then []
    else if chars[0] in available then [chars[0]] + Filter(chars[1..], available)
    else Filter(chars[1..], available)
  }

  /** Some character of type `t` is available. */
  predicate HasAvailable(t: CharacterType, available: set<char>)
  {
    exists c :: c in Characters(t) && c in available
  }

  /** Some character of `pw` belongs to the alphabet of `t`. */
  predicate Covers(pw: seq<char>, t: CharacterType)
  {
    exists i :: 0 <= i < |pw| && pw[i] in Characters(t)
  }

  /** What a generated password promises: its length, its characters and type coverage. */
  predicate IsPassword(g: RandomPasswordGenerator, pw: seq<char>)
  {
    && |pw| == g.length
    && (forall i :: 0 <= i < |pw| ==> pw[i] in AvailableCharacters(g))
    && (forall t :: t in g.characterTypes ==> Covers(pw, t))
  }

  /** The configurations for which `generate` returns a password. */
  predicate CanGenerate(g: RandomPasswordGenerator)
  {
    && g.length >= |g.characterTypes|
    && g.characterTypes != {}
    && AvailableCharacters(g) != {}
    && forall t :: t in g.characterTypes ==> HasAvailable(t, AvailableCharacters(g))
  }

  /**
   * The errors `generate` may throw for `g`, in the order its guards run. When
   * several types have no available character, any one of them may be named,
   * because the order in which a Swift `Set` is traversed is unspecified.
   */
  predicate IsReportedError(g: RandomPasswordGenerator, e: RandomPasswordGeneratorError)
  {
    if g.length < |g.characterTypes| then e == InsufficientLength
    else if g.characterTypes == {} then e == EmptyCharacterTypes
    else if AvailableCharacters(g) == {} then e == EmptyCharacterSet
    else
      && e.NoAvailableCharactersForType?
      && e.characterType in g.characterTypes
      && !HasAvailable(e.characterType, AvailableCharacters(g))
  }

  /** `randomCharacter(from:)`: some element of a non-empty collection. */
  method RandomCharacter(characters: seq<char>) returns (c: char)
    requires |characters| > 0
    ensures c in characters
  {
    var randomIndex :| 0 <= randomIndex < |characters|;
    c := characters[randomIndex];
  }

  /** Appending a character keeps every type a sequence already covers. */
  lemma {:induction false} CoversAppend(pw: seq<char>, extra: seq<char>, t: CharacterType)
    requires Covers(pw, t)
    ensures Covers(pw + extra, t)
  {
    var i :| 0 <= i < |pw| && pw[i] in Characters(t);
    assert (pw + extra)[i] == pw[i];
  }

  /** The coverage pass so far: one available character per processed type, covering each. */
  predicate Drawn(password: seq<char>, done: set<CharacterType>, available: set<char>)
  {
    && |password| == |done|
    && (forall i :: 0 <= i < |password| ==> password[i] in available)
    && (forall u :: u in done ==> Covers(password, u))
  }

  /** Drawing an available character of a not yet processed type `t` extends the coverage pass. */
  lemma {:induction false} DrawnStep(password: seq<char>, done: set<CharacterType>, available: set<char>, t: CharacterType, c: char)
    requires Drawn(password, done, available)
    requires t !in done && c in Characters(t) && c in available
    ensures Drawn(password + [c], done + {t}, available)
  {
    var next := password + [c];
    forall u | u in done
      ensures Covers(next, u)
    {
      CoversAppend(password, [c], u);
    }
    assert next[|password|] == c;
    forall i | 0 <= i < |next|
      ensures next[i] in available
    {
      if i < |password| {
        assert next[i] == password[i];
      }
    }
  }

  /** A type that a sequence of available characters covers has an available character. */
  lemma CoveredIsAvailable(password: seq<char>, available: set<char>, t: CharacterType)
    requires forall i :: 0 <= i < |password| ==> password[i] in available
    requires Covers(password, t)
    ensures HasAvailable(t, available)
  {
  }

  /**
   * The closure `generateCharactersFromTypes` maps over the types: the type's
   * characters that are available, and one of them drawn at random, or `None`
   * where the closure throws because there is none.
   */
  method CharacterOfType(t: CharacterType, available: set<char>) returns (r: Option<char>)
    ensures r.Some? <==> HasAvailable(t, available)
    ensures r.Some? ==> r.value in Characters(t) && r.value in available
  {
    var characters := Filter(Characters(t), available);
    if characters == [] {
      assert !HasAvailable(t, available) by {
        forall c | c in Characters(t) ensures c !in available {
          assert c !in characters;
        }
      }
      return None;
    }
    var c := RandomCharacter(characters);
    return Some(c);
  }

  /**
   * `generateCharactersFromTypes(using:)`: one character per type, drawn from
   * the type's available characters, or the error naming a type that has none.
   */
  method GenerateCharactersFromTypes(characterTypes: set<CharacterType>, available: set<char>)
    returns (r: Result<seq<char>, RandomPasswordGeneratorError>)
    ensures r.Success? <==> forall t :: t in characterTypes ==> HasAvailable(t, available)
    ensures r.Success? ==> |r.value| == |characterTypes|
    ensures r.Success? ==> forall i :: 0 <= i < |r.value| ==> r.value[i] in available
    ensures r.Success? ==> forall t :: t in characterTypes ==> Covers(r.value, t)
    ensures r.Failure? ==>
      && r.error.NoAvailableCharactersForType?
      && r.error.characterType in characterTypes
      && !HasAvailable(r.error.characterType, available)
  {
    var password: seq<char> := [];
    var remaining, done := characterTypes, {};
    while remaining != {}
      invariant remaining + done == characterTypes && remaining !! done
      invariant Drawn(password, done, available)
      decreases remaining
    {
      var t :| t in remaining;
      var drawn := CharacterOfType(t, available);
      if drawn.None? {
        return Failure(NoAvailableCharactersForType(t));
      }
      DrawnStep(password, done, available, t, drawn.value);
      password := password + [drawn.value];
      remaining, done := remaining - {t}, done + {t};
    }
    assert done == characterTypes;
    forall t | t in characterTypes
      ensures HasAvailable(t, available)
    {
      CoveredIsAvailable(password, available, t);
    }
    return Success(password);
  }

  /** `generateRandomCharacters(from:)`: `length - typeCount` characters drawn from the available set. */
  method GenerateRandomCharacters(typeCount: nat, length: int, available: set<char>) returns (r: seq<char>)
    requires typeCount <= length
    requires available != {}
    ensures |r| == length - typeCount
    ensures forall i :: 0 <= i < |r| ==> r[i] in available
  {
    r := [];
    var k := typeCount;
    while k < length
      invariant typeCount <= k <= length
      invariant |r| == k - typeCount
      invariant forall i :: 0 <= i < |r| ==> r[i] in available
    {
      var c :| c in available;
      r := r + [c];
      k := k + 1;
    }
  }

  /** Exchanging two positions keeps the multiset of a sequence. */
  lemma SwapKeepsMultiset(s: seq<char>, i: nat, j: nat)
    requires i < |s| && j < |s|
    ensures multiset(s[i := s[j]][j := s[i]]) == multiset(s)
  {
  }

  /**
   * `shuffled()`: the standard library's Fisher-Yates pass over a copy of the
   * array (a Swift array is a value, so the copy is a `seq`), with the swap
   * partner of each position chosen freely.
   */
  method Shuffled(s: seq<char>) returns (r: seq<char>)
    ensures multiset(r) == multiset(s)
  {
    r := s;
    var i := |r|;
    while i > 1
      invariant 0 <= i <= |r|
      invariant multiset(r) == multiset(s)
    {
      var j :| 0 <= j < i;
      SwapKeepsMultiset(r, i - 1, j);
      r := r[i - 1 := r[j]][j := r[i - 1]];
      i := i - 1;
    }
  }

  /** A permutation of a password covers the same types. */
  lemma {:induction false} CoversPermutation(pw: seq<char>, other: seq<char>, t: CharacterType)
    requires multiset(pw) == multiset(other) && Covers(pw, t)
    ensures Covers(other, t)
  {
    var i :| 0 <= i < |pw| && pw[i] in Characters(t);
    assert pw[i] in multiset(other);
    var j :| 0 <= j < |other| && other[j] == pw[i];
  }

  /** The coverage characters followed by the fill characters form a password. */
  lemma {:induction false} CoverageAndFill(g: RandomPasswordGenerator, coverage: seq<char>, fill: seq<char>)
    requires |coverage| + |fill| == g.length
    requires forall i :: 0 <= i < |coverage| ==> coverage[i] in AvailableCharacters(g)
    requires forall i :: 0 <= i < |fill| ==> fill[i] in AvailableCharacters(g)
    requires forall t :: t in g.characterTypes ==> Covers(coverage, t)
    ensures IsPassword(g, coverage + fill)
  {
    var pw := coverage + fill;
    forall t | t in g.characterTypes
      ensures Covers(pw, t)
    {
      CoversAppend(coverage, fill, t);
    }
    forall i | 0 <= i < |pw|
      ensures pw[i] in AvailableCharacters(g)
    {
      if i >= |coverage| {
        assert pw[i] == fill[i - |coverage|];
      }
    }
  }

  /** Shuffling a password yields a password: the promise is about the multiset alone. */
  lemma {:induction false} PermutedPassword(g: RandomPasswordGenerator, pw: seq<char>, other: seq<char>)
    requires IsPassword(g, pw) && multiset(pw) == multiset(other)
    ensures IsPassword(g, other)
  {
    forall t | t in g.characterTypes
      ensures Covers(other, t)
    {
      CoversPermutation(pw, other, t);
    }
    forall i | 0 <= i < |other|
      ensures other[i] in AvailableCharacters(g)
    {
      assert other[i] in multiset(pw);
    }
    assert |other| == |multiset(other)| == |multiset(pw)| == |pw|;
  }

  /**
   * `generate()`: the three configuration guards in source order, then the
   * coverage pass, the fill pass and the shuffle.
   */
  method Generate(g: RandomPasswordGenerator) returns (r: Result<string, RandomPasswordGeneratorError>)
    ensures r.Success? <==> CanGenerate(g)
    ensures r.Success? ==> IsPassword(g, r.value)
    ensures r.Success? ==> forall i :: 0 <= i < |r.value| ==> r.value[i] !in Excluded(g)
    ensures r.Failure? ==> IsReportedError(g, r.error)
  {
    if g.length < |g.characterTypes| {
      return Failure(InsufficientLength);
    }
    if g.characterTypes == {} {
      return Failure(EmptyCharacterTypes);
    }
    var availableCharacters := AvailableCharacters(g);
    if availableCharacters == {} {
      return Failure(EmptyCharacterSet);
    }
    var coverage := GenerateCharactersFromTypes(g.characterTypes, availableCharacters);
    if coverage.Failure? {
      return Failure(coverage.error);
    }
    var password := coverage.value;
    var fill := GenerateRandomCharacters(|g.characterTypes|, g.length, availableCharacters);
    CoverageAndFill(g, password, fill);
    password := password + fill;
    var shuffled := Shuffled(password);
    PermutedPassword(g, password, shuffled);
    return Success(shuffled);
  }
}
