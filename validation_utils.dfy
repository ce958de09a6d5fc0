/** `formatZodErrors`: a flattened validation error, its per-field message
    lists and its form-level messages, turned into one message per key. */
module ValidationUtils {

  /** One `[field, messages]` pair of `Object.entries(fieldErrors)`. */
  datatype FieldEntry = FieldEntry(field: string, messages: seq<string>)

  /** The key under which form-level errors are reported. */
  const FormKey: string := "form"

  /** Object keys are distinct. */
  predicate DistinctFields(entries: seq<FieldEntry>) {
    forall i, j :: 0 <= i < j < |entries| ==> entries[i].field != entries[j].field
  }

  /** The record the loop builds from the first `|entries|` entries: each
      field with a message maps to its first message, a later entry
      overwriting an earlier one. */
  function FirstMessages(entries: seq<FieldEntry>): map<string, string> {
    if entries == [] then map[]
    else
      var before := FirstMessages(entries[..|entries| - 1]);
      var e := entries[|entries| - 1];
      if |e.messages| > 0 then before[e.field := e.messages[0]] else before
  }

  /** The whole result: the fields' first messages, then the first form-level
      message under `form`, overwriting a field of that name. */
  function Formatted(entries: seq<FieldEntry>, formErrors: seq<string>): map<string, string> {
    var fields := FirstMessages(entries);
    if |formErrors| > 0 then fields[FormKey := formErrors[0]] else fields
  }

  /** The loop over the entries followed by the conditional `form` write. */
  method FormatZodErrors(entries: seq<FieldEntry>, formErrors: seq<string>) returns (fieldErrors: map<string, string>)
    ensures fieldErrors == Formatted(entries, formErrors)
  {
    fieldErrors := map[];
    var i := 0;
    while i < |entries|
      invariant 0 <= i <= |entries|
      invariant fieldErrors == FirstMessages(entries[..i])
    {
      var e := entries[i];
      if |e.messages| > 0 {
        fieldErrors := fieldErrors[e.field := e.messages[0]];
      }
      assert entries[..i + 1][..i] == entries[..i];
      i := i + 1;
    }
    assert entries[..i] == entries;
    if |formErrors| > 0 {
      fieldErrors := fieldErrors[FormKey := formErrors[0]];
    }
  }

  /** A key no entry names is not in the record. */
  lemma {:induction false} AbsentField(entries: seq<FieldEntry>, key: string)
    requires forall i :: 0 <= i < |entries| ==> entries[i].field != key
    ensures key !in FirstMessages(entries)
  {
    if entries != [] {
      AbsentField(entries[..|entries| - 1], key);
    }
  }

  /** With distinct fields, an entry with messages maps to its first message
      and an entry without messages is absent. */
  lemma {:induction false} EntryMessage(entries: seq<FieldEntry>, i: nat)
    requires DistinctFields(entries) && i < |entries|
    ensures var e := entries[i];
            && (|e.messages| > 0 ==> e.field in FirstMessages(entries) && FirstMessages(entries)[e.field] == e.messages[0])
            && (|e.messages| == 0 ==> e.field !in FirstMessages(entries))
  {
    var n := |entries| - 1;
    var init := entries[..n];
    if i == n {
      forall j | 0 <= j < |init|
        ensures init[j].field != entries[i].field
      {
      }
      AbsentField(init, entries[i].field);
    } else {
      EntryMessage(init, i);
    }
  }

  /** Each field with at least one message reports its first message, unless
      the field is named `form` and form-level errors overwrite it. */
  lemma FieldReportsFirstMessage(entries: seq<FieldEntry>, formErrors: seq<string>, i: nat)
    requires DistinctFields(entries) && i < |entries|
    requires |entries[i].messages| > 0
    requires entries[i].field != FormKey || |formErrors| == 0
    ensures var r := Formatted(entries, formErrors);
            entries[i].field in r && r[entries[i].field] == entries[i].messages[0]
  {
    EntryMessage(entries, i);
  }

  /** A field whose message list is empty is absent, unless it is `form` and
      form-level errors exist. */
  lemma EmptyFieldAbsent(entries: seq<FieldEntry>, formErrors: seq<string>, i: nat)
    requires DistinctFields(entries) && i < |entries|
    requires |entries[i].messages| == 0
    requires entries[i].field != FormKey || |formErrors| == 0
    ensures entries[i].field !in Formatted(entries, formErrors)
  {
    EntryMessage(entries, i);
  }

  /** The first form-level error is reported under `form`, whatever a field of
      that name said; with no form-level errors and no field named `form`,
      the key is absent. */
  lemma FormKeyReportsFormErrors(entries: seq<FieldEntry>, formErrors: seq<string>)
    ensures var r := Formatted(entries, formErrors);
            |formErrors| > 0 ==> FormKey in r && r[FormKey] == formErrors[0]
    ensures (forall i :: 0 <= i < |entries| ==> entries[i].field != FormKey) ==>
              (FormKey in Formatted(entries, formErrors) <==> |formErrors| > 0)
  {
    if forall i :: 0 <= i < |entries| ==> entries[i].field != FormKey {
      AbsentField(entries, FormKey);
    }
  }

  /** Only the entries' fields and `form` can appear as keys. */
  lemma UnknownKeyAbsent(entries: seq<FieldEntry>, formErrors: seq<string>, key: string)
    requires key != FormKey
    requires forall i :: 0 <= i < |entries| ==> entries[i].field != key
    ensures key !in Formatted(entries, formErrors)
  {
    AbsentField(entries, key);
  }
}
