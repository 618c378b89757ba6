/** What the two source files share and where they part: the two fingerprint
    functions agree on every record, while the two password tables agree on
    lengths but not on the special characters, and not on what an invalid option
    does. */
module CrossCheck {
  import opened PyStr
  import opened Sampling
  import opened Records
  import PM = PasswordManager
  import PU = PasswordUtils

  /** `calculate_hash` and `generate_hash` are the same function. */
  lemma HashCopiesAgree(r: Record, sha: string -> string)
    ensures PU.CalculateHash(r, sha) == PM.GenerateHash(r, sha)
  {
  }

  /** The hash `add_entry` stores is what `calculate_hash` computes from the
      stored record, `"hash"` key and all. */
  lemma StoredHashMatchesCalculateHash(count: nat, input: PM.AddInput, password: string,
                                       today: string, now: string, sha: string -> string)
    ensures var r := PM.NewEntry(count, input, password, today, now, sha);
      r["hash"] == PU.CalculateHash(r, sha)
  {
    var r := PM.NewEntry(count, input, password, today, now, sha);
    HashCopiesAgree(r, sha);
  }

  /** The manager's mixed alphabet is the utilities' one plus `'('` and `')'`. */
  lemma MixedAlphabetsDiffer(c: char)
    ensures c in PM.MixedAlphabet <==> c in PU.MixedAlphabet || c == '(' || c == ')'
  {
    PM.MixedAlphabetMembers(c);
    PU.MixedAlphabetMembers(c);
  }

  /** For options 1 to 4 the two tables have the same length, and every password
      `generate_password` can return is one the manager's option could have drawn. */
  lemma UtilsPasswordsFitManagerTable(option: int, draws: seq<nat>)
    requires 1 <= option <= 4 && PU.DrawsCover(option, draws)
    ensures var key := DecimalString(option);
      key in PM.PasswordOptions &&
      PM.PasswordOptions[key].length == PU.OptionPolicy(option).value.length &&
      Conforms(PM.PasswordOptions[key], PU.GeneratePassword(option, draws).value)
  {
    var key := DecimalString(option);
    assert DecimalString(1) == "1" && DecimalString(2) == "2";
    assert DecimalString(3) == "3" && DecimalString(4) == "4";
    var p := PU.OptionPolicy(option).value;
    forall c | c in p.alphabet ensures c in PM.PasswordOptions[key].alphabet {
      MixedAlphabetsDiffer(c);
    }
    ConformsToWiderAlphabet(p, PM.PasswordOptions[key], PU.GeneratePassword(option, draws).value);
  }

  /** Some draw makes the manager's option 3 return eight `'('`, a password no
      utilities option can return. */
  lemma ParenthesesOnlyFromManager()
    ensures var pw := "((((((((";
      var d := IndicesOf(PM.MixedAlphabet, pw);
      PM.DrawsCover("3", d) && PM.PromptPassword("3", d).0 == pw &&
      forall option: int, draws: seq<nat> | PU.DrawsCover(option, draws) && PU.GeneratePassword(option, draws).Ok? ::
        PU.GeneratePassword(option, draws).value != pw
  {
    var pw := "((((((((";
    MixedAlphabetsDiffer('(');
    assert forall i :: 0 <= i < |pw| ==> pw[i] in PM.MixedAlphabet;
    assert StripBounds("3") == (0, 1);
    assert Strip("3") == "3";
    GenerateReachesEveryConformingPassword(PM.PasswordOptions["3"], pw);
    forall option: int, draws: seq<nat> | PU.DrawsCover(option, draws) && PU.GeneratePassword(option, draws).Ok?
      ensures PU.GeneratePassword(option, draws).value != pw
    {
      if 3 <= option <= 4 {
        PU.GeneratePasswordNoParentheses(option, draws);
      }
    }
  }

  /** On an answer outside the table the manager still returns a mixed-8 password
      and warns, while `generate_password` on an option outside 1..4 raises. */
  lemma InvalidOptionHandlingDiffers(line: string, draws: seq<nat>, option: int, d: seq<nat>)
    requires Strip(line) !in PM.PasswordOptions && PM.DrawsCover(line, draws)
    requires !(1 <= option <= 4)
    ensures PM.PromptPassword(line, draws).1
    ensures Conforms(Policy(PM.MixedAlphabet, 8), PM.PromptPassword(line, draws).0)
    ensures PU.GeneratePassword(option, d) == PU.Err(PU.InvalidOption)
  {
  }
}
