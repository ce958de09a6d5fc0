/** The board create form: the payload its `handleSubmit` sends to
    `createBoardAction`. */
module BoardCreateForm {
  import opened Wrappers
  import opened Text
  import opened Schemas
  import opened TaskForms

  /** The columns a new board gets when the form names none. */
  const DefaultColumns: seq<string> := ["Backlog", "In Progress", "Done"]

  /** The submitted form: `formData.get` gives null (None) for a missing field. */
  datatype BoardFormData = BoardFormData(name: Option<string>, description: Option<string>, columns: Option<string>)

  /** The payload: name and description trimmed, the columns parsed as a
      comma list, or the default columns when the list comes out empty. */
  function BoardPayload(form: BoardFormData): (r: BoardCreateInput)
    ensures r.name == FieldText(form.name)
    ensures r.description == Some(FieldText(form.description))
    ensures r.columns.Some? && r.columns.value != []
    ensures var parsed := ParseCommaList(form.columns.GetOr(""));
            && (parsed != [] ==> r.columns.value == parsed)
            && (parsed == [] ==> r.columns.value == DefaultColumns)
  {
    var parsed := ParseCommaList(form.columns.GetOr(""));
    BoardCreateInput(FieldText(form.name), Some(FieldText(form.description)),
                     Some(if |parsed| > 0 then parsed else DefaultColumns))
  }

  /** A blank or missing column field gives the default columns. */
  lemma BlankColumnsGiveDefaults(form: BoardFormData)
    requires IsBlank(form.columns.GetOr(""))
    ensures BoardPayload(form).columns == Some(DefaultColumns)
  {
    ParseBlank(form.columns.GetOr(""));
  }

  /** Trimming items that are already trimmed changes none of them. */
  lemma TrimAllOfTrimmed(xs: seq<string>)
    requires forall i :: 0 <= i < |xs| ==> IsTrimmed(xs[i])
    ensures TrimAll(xs) == xs
  {
    forall i | 0 <= i < |xs|
      ensures Trim(xs[i]) == xs[i]
    {
      TrimOfTrimmed(xs[i]);
    }
  }

  /** Every column the payload names is a list item: trimmed, non-empty and
      free of commas. */
  lemma PayloadColumnsAreItems(form: BoardFormData)
    ensures var columns := BoardPayload(form).columns.value;
            forall i :: 0 <= i < |columns| ==> IsListItem(columns[i])
  {
    if ParseCommaList(form.columns.GetOr("")) == [] {
      DefaultColumnsAreItems();
    }
  }

  lemma DefaultColumnsAreItems()
    ensures forall i :: 0 <= i < |DefaultColumns| ==> IsListItem(DefaultColumns[i])
  {
    var c := DefaultColumns;
    assert IsListItem(c[0]) by {
      assert c[0] == ['B', 'a', 'c', 'k', 'l', 'o', 'g'];
    }
    assert IsListItem(c[1]) by {
      assert c[1] == ['I', 'n', ' ', 'P', 'r', 'o', 'g', 'r', 'e', 's', 's'];
    }
    assert IsListItem(c[2]) by {
      assert c[2] == ['D', 'o', 'n', 'e'];
    }
  }

  /** A payload of trimmed texts whose columns are list items passes
      `boardCreateSchema` exactly when its name is filled in, and the schema
      then keeps it as it is. */
  lemma TrimmedPayloadAccepted(p: BoardCreateInput)
    requires IsTrimmed(p.name) && p.description.Some? && IsTrimmed(p.description.value)
    requires p.columns.Some? && forall i :: 0 <= i < |p.columns.value| ==> IsListItem(p.columns.value[i])
    ensures ParseBoardCreate(p).Success? <==> p.name != ""
    ensures ParseBoardCreate(p).Success? ==> ParseBoardCreate(p).value == p
  {
    var columns := p.columns.value;
    assert AllFilled(p.columns) by {
      forall i | 0 <= i < |columns|
        ensures !IsBlank(columns[i])
      {
        assert !IsWhitespace(columns[i][0]);
      }
    }
    TrimOfTrimmed(p.name);
    BlankIffTrimEmpty(p.name);
    TrimAllOfTrimmed(columns);
    TrimOfTrimmed(p.description.value);
  }

  /** The form's payload passes `boardCreateSchema` exactly when the name is
      filled in, and the schema then keeps the payload as it is. */
  lemma BoardPayloadAccepted(form: BoardFormData)
    ensures var p := BoardPayload(form);
            && (ParseBoardCreate(p).Success? <==> FieldText(form.name) != "")
            && (ParseBoardCreate(p).Success? ==> ParseBoardCreate(p).value == p)
  {
    PayloadColumnsAreItems(form);
    TrimmedPayloadAccepted(BoardPayload(form));
  }
}
