/** password_manager.py: the password-option table and its fallback, the record
    fingerprint `generate_hash`, and the record-building and append steps of
    `add_entry`. Prompts, the clock, the random source and SHA-256 are injected:
    prompt answers arrive as raw input lines, `today` and `now` as already
    formatted strings, the random source as a stream of draw indices, and
    `sha256(text).hexdigest()` as an arbitrary function `sha` on strings. */
module PasswordManager {
  import opened PyStr
  import opened Sampling
  import opened Records

  // ---------------------------------------------------------------------------
  // PASSWORD_OPTIONS and prompt_password
  // ---------------------------------------------------------------------------

  /** `string.ascii_letters + string.digits + '!@#$%^&*()'`, the alphabet of options 3 and 4. */
  const MixedAlphabet: string := AsciiLetters + Digits + "!@#$%^&*()"

  /** `PASSWORD_OPTIONS`, option key to policy (the menu descriptions are not modelled). */
  const PasswordOptions: map<string, Policy> := map[
    "1" := Policy(Digits, 6),
    "2" := Policy(Digits, 8),
    "3" := Policy(MixedAlphabet, 8),
    "4" := Policy(MixedAlphabet, 12)]

  /** The option used after an invalid choice. */
  const DefaultOption: string := "3"

  lemma MixedAlphabetMembers(c: char)
    ensures c in MixedAlphabet <==> IsAsciiLetter(c) || IsDigit(c) || c in "!@#$%^&*()"
  {
    AsciiLettersMembers(c);
    DigitsMembers(c);
    assert MixedAlphabet == AsciiLetters + (Digits + "!@#$%^&*()");
  }

  /** The lookup of `prompt_password`: a key of the table selects its policy, anything
      else selects option 3 and raises the invalid-choice warning (the boolean). */
  function SelectPolicy(option: string): (r: (Policy, bool))
    ensures r.1 <==> option !in {"1", "2", "3", "4"}
    ensures option == "1" ==> r.0 == Policy(Digits, 6)
    ensures option == "2" ==> r.0 == Policy(Digits, 8)
    ensures option == "4" ==> r.0 == Policy(MixedAlphabet, 12)
    ensures option !in {"1", "2", "4"} ==> r.0 == Policy(MixedAlphabet, 8)
  {
    if option in PasswordOptions then (PasswordOptions[option], false)
    else (PasswordOptions[DefaultOption], true)
  }

  /** The draw stream covers what the option typed on `line` will draw. */
  predicate DrawsCover(line: string, draws: seq<nat>) {
    var p := SelectPolicy(Strip(line)).0;
    Fits(draws, p.alphabet, p.length)
  }

  /** `prompt_password` given the raw answer `line` and the random draws: the
      password and whether the invalid-choice warning was printed. Options 1 and 2
      give 6 and 8 digits, options 3 and 4 give 8 and 12 characters of the mixed
      alphabet, and any other answer gives what option 3 gives. */
  function PromptPassword(line: string, draws: seq<nat>): (r: (string, bool))
    requires DrawsCover(line, draws)
    ensures r.1 <==> Strip(line) !in {"1", "2", "3", "4"}
    ensures Strip(line) == "1" ==> Conforms(Policy(Digits, 6), r.0)
    ensures Strip(line) == "2" ==> Conforms(Policy(Digits, 8), r.0)
    ensures Strip(line) == "4" ==> Conforms(Policy(MixedAlphabet, 12), r.0)
    ensures Strip(line) !in {"1", "2", "4"} ==> Conforms(Policy(MixedAlphabet, 8), r.0)
  {
    var (p, warned) := SelectPolicy(Strip(line));
    (Generate(p, draws), warned)
  }

  /** Options 1 and 2 yield digits only; options 3 and 4, and the fallback, may use
      any ASCII letter, digit or one of `!@#$%^&*()` and nothing else. */
  lemma PromptPasswordCharacters(line: string, draws: seq<nat>)
    requires DrawsCover(line, draws)
    ensures var pw := PromptPassword(line, draws).0;
      forall i :: 0 <= i < |pw| ==>
        if Strip(line) in {"1", "2"} then IsDigit(pw[i])
        else IsAsciiLetter(pw[i]) || IsDigit(pw[i]) || pw[i] in "!@#$%^&*()"
  {
    var pw := PromptPassword(line, draws).0;
    forall i | 0 <= i < |pw|
      ensures if Strip(line) in {"1", "2"} then IsDigit(pw[i])
              else IsAsciiLetter(pw[i]) || IsDigit(pw[i]) || pw[i] in "!@#$%^&*()"
    {
      DigitsMembers(pw[i]);
      MixedAlphabetMembers(pw[i]);
    }
  }

  // ---------------------------------------------------------------------------
  // generate_hash
  // ---------------------------------------------------------------------------

  /** The fields `generate_hash` joins, in this order. */
  const HashFields: seq<string> := ["id", "username", "email", "phone", "password", "reg_date", "timestamp", "note"]

  /** The same fields as a set: the keys of a record before its hash is added. */
  const HashFieldSet: set<string> := {"id", "username", "email", "phone", "password", "reg_date", "timestamp", "note"}

  /** `HashFieldSet` holds exactly the names listed in `HashFields`. */
  lemma HashFieldSetIsHashFields()
    ensures HashFieldSet == set f | f in HashFields
  {
  }

  /** The text `generate_hash` digests: the eight fields id, username, email, phone,
      password, reg_date, timestamp and note, in that order, joined with no
      separator, a missing field read as the empty string. */
  function Preimage(entry: Record): (t: string)
    ensures t ==
      Get(entry, "id") + (Get(entry, "username") + (Get(entry, "email") + (Get(entry, "phone") +
      (Get(entry, "password") + (Get(entry, "reg_date") + (Get(entry, "timestamp") + Get(entry, "note")))))))
  {
    JoinEightFields(entry, HashFields);
    JoinFields(entry, HashFields)
  }

  /** `generate_hash(entry)`: the digest of that eight-field concatenation. */
  function GenerateHash(entry: Record, sha: string -> string): (h: string)
    ensures h == sha(Get(entry, "id") + (Get(entry, "username") + (Get(entry, "email") + (Get(entry, "phone") +
      (Get(entry, "password") + (Get(entry, "reg_date") + (Get(entry, "timestamp") + Get(entry, "note"))))))))
  {
    sha(Preimage(entry))
  }

  /** Two records that agree on the eight hashed fields get the same hash,
      whatever else they hold. */
  lemma GenerateHashReadsOnlyHashFields(e1: Record, e2: Record, sha: string -> string)
    requires forall f :: f in HashFields ==> Get(e1, f) == Get(e2, f)
    ensures GenerateHash(e1, sha) == GenerateHash(e2, sha)
  {
    JoinFieldsDependsOnlyOnFields(e1, e2, HashFields);
  }

  /** Setting or removing a key outside the eight fields, `"hash"` included,
      leaves the hash unchanged. */
  lemma GenerateHashIgnoresOtherKey(e: Record, key: string, value: string, sha: string -> string)
    requires key !in HashFields
    ensures GenerateHash(e[key := value], sha) == GenerateHash(e, sha)
    ensures GenerateHash(e - {key}, sha) == GenerateHash(e, sha)
  {
    JoinFieldsIgnoresOtherKey(e, HashFields, key, value);
    JoinFieldsIgnoresRemovedKey(e, HashFields, key);
  }

  /** The join has no separator, so two different records can share a preimage and
      therefore a hash whatever `sha` is: here a character moves from username to email. */
  lemma PreimageAmbiguous(sha: string -> string)
    ensures var e1 := map["id" := "001", "username" := "ab", "email" := "c@x.org"];
      var e2 := map["id" := "001", "username" := "abc", "email" := "@x.org"];
      e1 != e2 && GenerateHash(e1, sha) == GenerateHash(e2, sha)
  {
    var e1: Record := map["id" := "001", "username" := "ab", "email" := "c@x.org"];
    var e2: Record := map["id" := "001", "username" := "abc", "email" := "@x.org"];
    assert e1["username"] != e2["username"];
    var rest := Get(e1, "phone") + (Get(e1, "password") + (Get(e1, "reg_date") +
      (Get(e1, "timestamp") + Get(e1, "note"))));
    assert rest == "";
    assert Get(e2, "phone") + (Get(e2, "password") + (Get(e2, "reg_date") +
      (Get(e2, "timestamp") + Get(e2, "note")))) == "";
    assert "ab" + ("c@x.org" + "") == "abc" + ("@x.org" + "");
  }

  // ---------------------------------------------------------------------------
  // add_entry
  // ---------------------------------------------------------------------------

  /** `str(len(data) + 1).zfill(3)`, the id of the record added after `count` others:
      a digit string whose value is `count + 1`, three characters long up to 999
      records and unpadded `str(count + 1)` from then on. */
  function NewId(count: nat): (id: string)
    ensures IsDecimal(id) && DecimalValue(id) == count + 1
    ensures count < 999 <==> |id| == 3
    ensures count >= 999 ==> id == DecimalString(count + 1)
  {
    DecimalRoundTrip(count + 1);
    DecimalStringLength(count + 1);
    ZFillKeepsValue(DecimalString(count + 1), 3);
    ZFill(DecimalString(count + 1), 3)
  }

  lemma NewIdExamples()
    ensures NewId(0) == "001" && NewId(1) == "002" && NewId(9) == "010"
    ensures NewId(998) == "999" && NewId(999) == "1000"
  {
    assert DecimalString(1) == "1";
    assert DecimalString(2) == "2";
    assert DecimalString(10) == "10";
    assert DecimalString(999) == "999";
    assert DecimalString(1000) == "1000";
  }

  /** Distinct counts give distinct ids. */
  lemma NewIdInjective(m: nat, n: nat)
    ensures NewId(m) == NewId(n) <==> m == n
  {
  }

  /** `... .strip() or datetime.now().strftime("%Y-%m-%d")`: an answer that is
      empty once stripped becomes `today`; any other is kept as stripped. */
  function RegDate(line: string, today: string): (d: string)
    ensures AllSpace(line) ==> d == today
    ensures !AllSpace(line) ==> d == Strip(line) && d != [] && !IsSpace(d[0]) && !IsSpace(d[|d| - 1])
  {
    var s := Strip(line);
    if s == "" then today else s
  }

  /** The raw answers to the prompts of `add_entry`, in the order they are asked. */
  datatype AddInput = AddInput(
    username: string, email: string, phone: string,
    option: string, regDate: string, note: string)

  /** The dict literal of `add_entry` (the record before `"hash"` is set). */
  function UnhashedEntry(id: string, username: string, email: string, phone: string,
                         password: string, regDate: string, timestamp: string, note: string): (e: Record)
    ensures e.Keys == HashFieldSet
    ensures e["id"] == id && e["username"] == username && e["email"] == email && e["phone"] == phone
    ensures e["password"] == password && e["reg_date"] == regDate
    ensures e["timestamp"] == timestamp && e["note"] == note
  {
    map["id" := id, "username" := username, "email" := email, "phone" := phone,
        "password" := password, "reg_date" := regDate, "timestamp" := timestamp, "note" := note]
  }

  /** `entry["hash"] = generate_hash(entry)`: the hash is taken over the record as it
      is before `"hash"` is added, and hashing the result again gives the same value. */
  function WithHash(e: Record, sha: string -> string): (r: Record)
    requires "hash" !in e
    ensures r.Keys == e.Keys + {"hash"} && r - {"hash"} == e
    ensures r["hash"] == GenerateHash(e, sha) == GenerateHash(r, sha)
  {
    var h := GenerateHash(e, sha);
    GenerateHashIgnoresOtherKey(e, "hash", h, sha);
    assert e["hash" := h] - {"hash"} == e;
    e["hash" := h]
  }

  /** The record `add_entry` builds after `count` others from the prompt answers,
      the generated password and the injected dates: the eight stripped fields and
      then `"hash"` over them. */
  function NewEntry(count: nat, input: AddInput, password: string, today: string, now: string,
                    sha: string -> string): (r: Record)
    ensures r.Keys == HashFieldSet + {"hash"}
    ensures r - {"hash"} == UnhashedEntry(NewId(count), Strip(input.username), Strip(input.email),
      Strip(input.phone), password, RegDate(input.regDate, today), now, Strip(input.note))
    ensures r["hash"] == GenerateHash(r - {"hash"}, sha) == GenerateHash(r, sha)
  {
    var e := UnhashedEntry(NewId(count), Strip(input.username), Strip(input.email),
      Strip(input.phone), password, RegDate(input.regDate, today), now, Strip(input.note));
    WithHash(e, sha)
  }

  /** The stored hash is the digest of the stored record's own eight fields. */
  lemma NewEntryHashPreimage(count: nat, input: AddInput, password: string, today: string, now: string,
                             sha: string -> string)
    ensures var r := NewEntry(count, input, password, today, now, sha);
      r["hash"] == sha(r["id"] + (r["username"] + (r["email"] + (r["phone"] +
      (r["password"] + (r["reg_date"] + (r["timestamp"] + r["note"])))))))
  {
    var r := NewEntry(count, input, password, today, now, sha);
    assert r["hash"] == GenerateHash(r, sha);
  }

  /** Every record's id is the one `add_entry` gives the record at its position:
      what a list built from empty by adds alone looks like. */
  ghost predicate OrdinalIds(data: seq<Record>) {
    forall i :: 0 <= i < |data| ==> Get(data[i], "id") == NewId(i)
  }

  /** Appending the record `add_entry` builds keeps ids ordinal. */
  lemma OrdinalIdsAppend(data: seq<Record>, e: Record)
    requires OrdinalIds(data) && Get(e, "id") == NewId(|data|)
    ensures OrdinalIds(data + [e])
  {
    var d := data + [e];
    forall i | 0 <= i < |d| ensures Get(d[i], "id") == NewId(i) {
      if i < |data| {
        assert d[i] == data[i];
      } else {
        assert d[i] == e;
      }
    }
  }

  /** In such a list the i-th record (from 0) has id value i + 1, so ids are
      pairwise distinct and increase in insertion order. */
  lemma OrdinalIdsDistinctIncreasing(data: seq<Record>)
    requires OrdinalIds(data)
    ensures forall i :: 0 <= i < |data| ==>
      IsDecimal(Get(data[i], "id")) && DecimalValue(Get(data[i], "id")) == i + 1
    ensures forall i, j :: 0 <= i < j < |data| ==> Get(data[i], "id") != Get(data[j], "id")
  {
    forall i | 0 <= i < |data|
      ensures IsDecimal(Get(data[i], "id")) && DecimalValue(Get(data[i], "id")) == i + 1
    {
      assert Get(data[i], "id") == NewId(i);
    }
    forall i, j | 0 <= i < j < |data| ensures Get(data[i], "id") != Get(data[j], "id") {
      NewIdInjective(i, j);
    }
  }

  /** The list `add_entry` works on: what `load_data()` returned, which it extends
      with `data.append` before saving. */
  class Notebook {
    var data: seq<Record>

    constructor (loaded: seq<Record>)
      ensures data == loaded
    {
      data := loaded;
    }

    /** `add_entry`: appends exactly one record, built from the answers, after the
        existing ones, which stay as they were; a list with ordinal ids keeps them. */
    method AddEntry(input: AddInput, today: string, now: string, draws: seq<nat>, sha: string -> string)
      returns (warned: bool)
      requires DrawsCover(input.option, draws)
      modifies this
      ensures data == old(data) + [NewEntry(|old(data)|, input, PromptPassword(input.option, draws).0, today, now, sha)]
      ensures warned <==> Strip(input.option) !in {"1", "2", "3", "4"}
      ensures OrdinalIds(old(data)) ==> OrdinalIds(data)
    {
      var prompted := PromptPassword(input.option, draws);
      warned := prompted.1;
      var entry := NewEntry(|data|, input, prompted.0, today, now, sha);
      if OrdinalIds(data) {
        OrdinalIdsAppend(data, entry);
      }
      data := data + [entry];
    }
  }

  /** From an empty list, two adds give ids "001" and "002", in that order. */
  method TwoAddsFromEmpty(a: AddInput, b: AddInput, today: string, now: string,
                          da: seq<nat>, db: seq<nat>, sha: string -> string)
    returns (ids: seq<string>)
    requires DrawsCover(a.option, da) && DrawsCover(b.option, db)
    ensures ids == ["001", "002"]
  {
    var book := new Notebook([]);
    var _ := book.AddEntry(a, today, now, da, sha);
    var _ := book.AddEntry(b, today, now, db, sha);
    NewIdExamples();
    ids := [Get(book.data[0], "id"), Get(book.data[1], "id")];
  }
}
