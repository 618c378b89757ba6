/** A stored record is a Python dict from field name to text value. The
    hashing code reads it with `record.get(field, '')` and joins the values
    of a fixed field list with no separator. */
module Records {

  type Record = map<string, string>

  /** `record.get(key, '')`. */
  function Get(r: Record, key: string): (v: string)
    ensures key in r ==> v == r[key]
    ensures key !in r ==> v == ""
  {
    if key in r then r[key] else ""
  }

  /** `''.join(record.get(f, '') for f in fields)`. */
  function JoinFields(r: Record, fields: seq<string>): string
  {
    if fields == [] then "" else Get(r, fields[0]) + JoinFields(r, fields[1..])
  }

  /** One step of the join, at position `i` of the field list. */
  lemma JoinFieldsStep(r: Record, fields: seq<string>, i: nat)
    requires i < |fields|
    ensures JoinFields(r, fields[i..]) == Get(r, fields[i]) + JoinFields(r, fields[i + 1..])
  {
    assert fields[i..][1..] == fields[i + 1..];
  }

  /** The join of an eight-field list, written out. */
  lemma JoinEightFields(r: Record, f: seq<string>)
    requires |f| == 8
    ensures JoinFields(r, f) ==
      Get(r, f[0]) + (Get(r, f[1]) + (Get(r, f[2]) + (Get(r, f[3]) +
      (Get(r, f[4]) + (Get(r, f[5]) + (Get(r, f[6]) + Get(r, f[7])))))))
  {
    assert f[8..] == [];
    JoinFieldsStep(r, f, 7);
    var j7 := Get(r, f[7]);
    assert JoinFields(r, f[7..]) == j7;
    JoinFieldsStep(r, f, 6);
    var j6 := Get(r, f[6]) + j7;
    assert JoinFields(r, f[6..]) == j6;
    JoinFieldsStep(r, f, 5);
    var j5 := Get(r, f[5]) + j6;
    assert JoinFields(r, f[5..]) == j5;
    JoinFieldsStep(r, f, 4);
    var j4 := Get(r, f[4]) + j5;
    assert JoinFields(r, f[4..]) == j4;
    JoinFieldsStep(r, f, 3);
    var j3 := Get(r, f[3]) + j4;
    assert JoinFields(r, f[3..]) == j3;
    JoinFieldsStep(r, f, 2);
    var j2 := Get(r, f[2]) + j3;
    assert JoinFields(r, f[2..]) == j2;
    JoinFieldsStep(r, f, 1);
    var j1 := Get(r, f[1]) + j2;
    assert JoinFields(r, f[1..]) == j1;
    JoinFieldsStep(r, f, 0);
    assert f[0..] == f;
  }

  /** The join reads the record only at the listed fields. */
  lemma {:induction false} JoinFieldsDependsOnlyOnFields(r1: Record, r2: Record, fields: seq<string>)
    requires forall i :: 0 <= i < |fields| ==> Get(r1, fields[i]) == Get(r2, fields[i])
    ensures JoinFields(r1, fields) == JoinFields(r2, fields)
  {
    if fields != [] {
      JoinFieldsDependsOnlyOnFields(r1, r2, fields[1..]);
    }
  }

  /** Setting a key outside the field list leaves the join unchanged. */
  lemma JoinFieldsIgnoresOtherKey(r: Record, fields: seq<string>, key: string, value: string)
    requires key !in fields
    ensures JoinFields(r[key := value], fields) == JoinFields(r, fields)
  {
    forall i | 0 <= i < |fields| ensures Get(r[key := value], fields[i]) == Get(r, fields[i]) {
      assert fields[i] != key;
    }
    JoinFieldsDependsOnlyOnFields(r[key := value], r, fields);
  }

  /** Removing a key outside the field list leaves the join unchanged. */
  lemma JoinFieldsIgnoresRemovedKey(r: Record, fields: seq<string>, key: string)
    requires key !in fields
    ensures JoinFields(r - {key}, fields) == JoinFields(r, fields)
  {
    forall i | 0 <= i < |fields| ensures Get(r - {key}, fields[i]) == Get(r, fields[i]) {
      assert fields[i] != key;
    }
    JoinFieldsDependsOnlyOnFields(r - {key}, r, fields);
  }
}
