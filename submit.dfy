/** The submit handler: before the submitted values are stored, every field
    that is still undefined is given the empty string, so that the stored
    object has a defined value for each of its keys. */
module Submit {
  import opened Schema

  /** A value of the submitted object: a field the user never set, a string
      or a number. */
  datatype Datum = Undefined | Str(s: string) | Num(n: int)

  /** The value a field holds once the handler has passed over it. */
  function Filled(d: Datum): (r: Datum)
    ensures !r.Undefined?
    ensures !d.Undefined? ==> r == d
  {
    if d.Undefined? then Str("") else d
  }

  /** The submitted object with every undefined value replaced. */
  function Normalised(m: map<string, Datum>): (r: map<string, Datum>)
    ensures r.Keys == m.Keys
    ensures forall k :: k in r ==> !r[k].Undefined?
    ensures forall k :: k in m && !m[k].Undefined? ==> r[k] == m[k]
    ensures forall k :: k in m && m[k].Undefined? ==> r[k] == Str("")
  {
    map k | k in m :: Filled(m[k])
  }

  /** An object without undefined values is left as it is, and only such
      objects are. */
  lemma NormalisedFixedPoints(m: map<string, Datum>)
    ensures Normalised(m) == m <==> forall k :: k in m ==> !m[k].Undefined?
  {
    if Normalised(m) != m {
      var k :| k in m && Normalised(m)[k] != m[k];
      assert m[k].Undefined?;
    }
  }

  /** Handling a submission twice stores the same object as handling it once. */
  lemma NormalisedIdempotent(m: map<string, Datum>)
    ensures Normalised(Normalised(m)) == Normalised(m)
  {
    NormalisedFixedPoints(Normalised(m));
  }

  /** The object handed to the submit handler, whose entries the handler
      rewrites in place. */
  class SubmittedData {
    var entries: map<string, Datum>

    constructor (data: map<string, Datum>)
      ensures entries == data
    {
      entries := data;
    }

    /** The loop over the object's keys: each undefined value becomes the
        empty string, every other value stays. */
    method ReplaceUndefined()
      modifies this
      ensures entries == Normalised(old(entries))
    {
      ghost var start := entries;
      var todo := entries.Keys;
      while todo != {}
        invariant todo <= start.Keys
        invariant entries.Keys == start.Keys
        invariant forall k :: k in start && k !in todo ==> entries[k] == Filled(start[k])
        invariant forall k :: k in todo ==> entries[k] == start[k]
        decreases todo
      {
        var k :| k in todo;
        entries := entries[k := if entries[k].Undefined? then Str("") else entries[k]];
        todo := todo - {k};
      }
    }
  }

  function StringDatum(v: Value<string>): Datum {
    if v.Absent? then Undefined else Str(v.value)
  }

  function NumberDatum(v: Value<int>): Datum {
    if v.Absent? then Undefined else Num(v.value)
  }

  /** The keys of the form's values, as the initial state declares them. */
  const FormKeys: set<string> :=
    {"name", "companyType", "companyPurpose", "clientPhoneFirst", "clientPhoneSecond", "clientEmail"}

  /** The form input as the object the submit handler receives. */
  function Submitted(x: FormInput): (m: map<string, Datum>)
    ensures m.Keys == FormKeys
  {
    map[
      "name" := StringDatum(x.name),
      "companyType" := NumberDatum(x.companyType),
      "companyPurpose" := NumberDatum(x.companyPurpose),
      "clientPhoneFirst" := StringDatum(x.clientPhoneFirst),
      "clientPhoneSecond" := StringDatum(x.clientPhoneSecond),
      "clientEmail" := StringDatum(x.clientEmail)
    ]
  }

  /** After a submission that passed validation, the stored object has the
      keys of the initial state, the required fields keep what was entered,
      and an optional text field left unset is stored as the empty string. */
  lemma StoredAfterValidSubmit(x: FormInput)
    requires Validate(x) == map[]
    ensures Normalised(Submitted(x)).Keys == FormKeys
    ensures forall k :: k in FormKeys ==> !Normalised(Submitted(x))[k].Undefined?
    ensures Normalised(Submitted(x))["name"] == Str(x.name.value)
    ensures Normalised(Submitted(x))["companyType"] == Num(x.companyType.value)
    ensures Normalised(Submitted(x))["companyPurpose"] == Num(x.companyPurpose.value)
    ensures x.clientEmail.Absent? ==> Normalised(Submitted(x))["clientEmail"] == Str("")
  {
    assert Name !in Validate(x);
    assert CompanyType !in Validate(x);
    assert CompanyPurpose !in Validate(x);
  }
}
