/** password_utils.py: `generate_password`, the option dispatch with its
    `ValueError` for an unknown option, and `calculate_hash`, the second copy
    of the record fingerprint. The random source and SHA-256 are injected as in
    password_manager.dfy. */
module PasswordUtils {
  import opened PyStr
  import opened Sampling
  import opened Records

  /** `string.ascii_letters + string.digits + "!@#$%^&*"`, the alphabet of options 3 and 4. */
  const MixedAlphabet: string := AsciiLetters + Digits + "!@#$%^&*"

  datatype Error = InvalidOption

  /** The outcome of a call that may raise. */
  datatype Result<T> = Ok(value: T) | Err(error: Error)

  lemma MixedAlphabetMembers(c: char)
    ensures c in MixedAlphabet <==> IsAsciiLetter(c) || IsDigit(c) || c in "!@#$%^&*"
  {
    AsciiLettersMembers(c);
    DigitsMembers(c);
    assert MixedAlphabet == AsciiLetters + (Digits + "!@#$%^&*");
  }

  /** The `if`/`elif` dispatch of `generate_password`: options 1 to 4 select a
      policy, any other option raises `ValueError`. */
  function OptionPolicy(option: int): (r: Result<Policy>)
    ensures r.Ok? <==> 1 <= option <= 4
    ensures option == 1 ==> r == Ok(Policy(Digits, 6))
    ensures option == 2 ==> r == Ok(Policy(Digits, 8))
    ensures option == 3 ==> r == Ok(Policy(MixedAlphabet, 8))
    ensures option == 4 ==> r == Ok(Policy(MixedAlphabet, 12))
  {
    if option == 1 then Ok(Policy(Digits, 6))
    else if option == 2 then Ok(Policy(Digits, 8))
    else if option == 3 then Ok(Policy(MixedAlphabet, 8))
    else if option == 4 then Ok(Policy(MixedAlphabet, 12))
    else Err(InvalidOption)
  }

  /** The draw stream covers what `option` will draw; an invalid option draws nothing. */
  predicate DrawsCover(option: int, draws: seq<nat>) {
    OptionPolicy(option).Ok? ==>
      Fits(draws, OptionPolicy(option).value.alphabet, OptionPolicy(option).value.length)
  }

  /** `generate_password(option)`: 6 or 8 decimal digits for options 1 and 2; 8 or
      12 characters, each an ASCII letter, a digit or one of `!@#$%^&*`, for options
      3 and 4; `ValueError` and no password otherwise. */
  function GeneratePassword(option: int, draws: seq<nat>): (r: Result<string>)
    requires DrawsCover(option, draws)
    ensures r.Err? <==> !(1 <= option <= 4)
    ensures option == 1 || option == 2 ==>
      r.Ok? && |r.value| == (if option == 1 then 6 else 8) &&
      forall i :: 0 <= i < |r.value| ==> IsDigit(r.value[i])
    ensures option == 3 || option == 4 ==>
      r.Ok? && |r.value| == (if option == 3 then 8 else 12) &&
      forall i :: 0 <= i < |r.value| ==>
        IsAsciiLetter(r.value[i]) || IsDigit(r.value[i]) || r.value[i] in "!@#$%^&*"
  {
    match OptionPolicy(option)
    case Err(e) => Err(e)
    case Ok(p) =>
      var pw := Generate(p, draws);
      CharactersOfAlphabets(pw);
      Ok(pw)
  }

  lemma CharactersOfAlphabets(pw: string)
    ensures forall i :: 0 <= i < |pw| ==> (pw[i] in Digits <==> IsDigit(pw[i]))
    ensures forall i :: 0 <= i < |pw| ==>
      (pw[i] in MixedAlphabet <==> IsAsciiLetter(pw[i]) || IsDigit(pw[i]) || pw[i] in "!@#$%^&*")
  {
    forall i | 0 <= i < |pw|
      ensures pw[i] in Digits <==> IsDigit(pw[i])
      ensures pw[i] in MixedAlphabet <==> IsAsciiLetter(pw[i]) || IsDigit(pw[i]) || pw[i] in "!@#$%^&*"
    {
      DigitsMembers(pw[i]);
      MixedAlphabetMembers(pw[i]);
    }
  }

  /** Whatever the draws, a password from options 3 and 4 holds no parenthesis. */
  lemma GeneratePasswordNoParentheses(option: int, draws: seq<nat>)
    requires DrawsCover(option, draws) && (option == 3 || option == 4)
    ensures var pw := GeneratePassword(option, draws).value;
      forall i :: 0 <= i < |pw| ==> pw[i] != '(' && pw[i] != ')'
  {
  }

  /** An invalid option fails whatever the random source would have produced. */
  lemma GeneratePasswordInvalidIgnoresDraws(option: int, d1: seq<nat>, d2: seq<nat>)
    requires !(1 <= option <= 4)
    ensures GeneratePassword(option, d1) == GeneratePassword(option, d2) == Err(InvalidOption)
  {
  }

  // ---------------------------------------------------------------------------
  // calculate_hash
  // ---------------------------------------------------------------------------

  /** The `fields` list of `calculate_hash`. */
  const Fields: seq<string> := ["id", "username", "email", "phone", "password", "reg_date", "timestamp", "note"]

  /** `raw_string`, the text `calculate_hash` digests: the values of `Fields`, in
      order, joined with no separator, a missing field read as the empty string. */
  function RawString(record: Record): (t: string)
    ensures t ==
      Get(record, "id") + (Get(record, "username") + (Get(record, "email") + (Get(record, "phone") +
      (Get(record, "password") + (Get(record, "reg_date") + (Get(record, "timestamp") + Get(record, "note")))))))
  {
    JoinEightFields(record, Fields);
    JoinFields(record, Fields)
  }

  /** `calculate_hash(record)`: the digest of that eight-field concatenation. */
  function CalculateHash(record: Record, sha: string -> string): (h: string)
    ensures h == sha(Get(record, "id") + (Get(record, "username") + (Get(record, "email") + (Get(record, "phone") +
      (Get(record, "password") + (Get(record, "reg_date") + (Get(record, "timestamp") + Get(record, "note"))))))))
  {
    sha(RawString(record))
  }

  /** Keys outside `Fields` do not affect `calculate_hash`. */
  lemma CalculateHashIgnoresOtherKeys(r1: Record, r2: Record, sha: string -> string)
    requires forall f :: f in Fields ==> Get(r1, f) == Get(r2, f)
    ensures CalculateHash(r1, sha) == CalculateHash(r2, sha)
  {
    JoinFieldsDependsOnlyOnFields(r1, r2, Fields);
  }
}
