/**
 The request check of the prediction endpoint: the required fields are
 looked up in their declared order and the first absent one is reported.
 Fields outside that list are never consulted.
 */
module Validation {
  import opened JsonValues

  /** The required fields, in the order the endpoint checks them. */
  const RequiredFields: seq<string> :=
    ["user_id", "application_at", "gps_fix_at", "server_upload_at", "age", "cash_incoming_30days"]

  datatype Verdict = Missing(name: string) | Ok

  /** `fields[i]` is the first of `fields` that `data` lacks. */
  predicate FirstAbsentAt(fields: seq<string>, data: Record, i: int) {
    && 0 <= i < |fields|
    && fields[i] !in data
    && forall j :: 0 <= j < i ==> fields[j] in data
  }

  /** Walks `fields` in order and stops at the first one `data` lacks. */
  function FirstMissing(fields: seq<string>, data: Record): (r: Verdict)
    ensures r.Ok? <==> forall i :: 0 <= i < |fields| ==> fields[i] in data
    ensures r.Missing? ==> exists i :: FirstAbsentAt(fields, data, i) && fields[i] == r.name
    decreases |fields|
  {
    if |fields| == 0 then Ok
    else if fields[0] !in data then
      assert FirstAbsentAt(fields, data, 0);
      Missing(fields[0])
    else
      var rest := FirstMissing(fields[1..], data);
      assert forall i :: 1 <= i < |fields| ==> fields[i] == fields[1..][i - 1];
      if rest.Missing? then
        var k :| FirstAbsentAt(fields[1..], data, k) && fields[1..][k] == rest.name;
        assert FirstAbsentAt(fields, data, k + 1);
        rest
      else
        rest
  }

  /** The endpoint's check: Ok exactly when all six required fields are
      present; otherwise the first absent one, every earlier one present. */
  function Validate(data: Record): (r: Verdict)
    ensures r.Ok? <==> forall f :: f in RequiredFields ==> f in data
    ensures r.Missing? ==>
      exists i :: FirstAbsentAt(RequiredFields, data, i) && RequiredFields[i] == r.name
  {
    FirstMissing(RequiredFields, data)
  }

  /** The verdict depends only on which of `fields` are present, so fields
      outside the list (and the values of all fields) are ignored. */
  lemma {:induction false} FirstMissingIgnoresOtherFields(fields: seq<string>, d1: Record, d2: Record)
    requires forall f :: f in fields ==> (f in d1 <==> f in d2)
    ensures FirstMissing(fields, d1) == FirstMissing(fields, d2)
    decreases |fields|
  {
    if |fields| > 0 && fields[0] in d1 {
      FirstMissingIgnoresOtherFields(fields[1..], d1, d2);
    }
  }

  lemma ValidateIgnoresOtherFields(d1: Record, d2: Record)
    requires forall f :: f in RequiredFields ==> (f in d1 <==> f in d2)
    ensures Validate(d1) == Validate(d2)
  {
    FirstMissingIgnoresOtherFields(RequiredFields, d1, d2);
  }
}
