/**
 * The single `clinic_settings` row and the partial updates written to it:
 * only the fields present in the request body are assigned, a JSON `null`
 * included, and always on the row with id 1.
 */
module Settings {
  import opened Wrappers
  import opened Records
  import opened Http
  import opened Database

  /** A request body: the fields it carries (a JSON `null` is carried, as `None`). */
  type Body = map<string, Nullable>

  /** One `column = ?` of a dynamic `UPDATE`, with its value. */
  datatype Assignment = Assignment(column: string, value: Nullable)

  /** The print-layout fields `updatePrintPreferences` may write, in the order it checks them. */
  const PrintPreferenceFields: seq<string> := [
    "header_margin_top", "header_margin_bottom", "footer_margin_top", "footer_margin_bottom",
    "page_margin_left", "page_margin_right", "header_padding_top", "header_padding_bottom",
    "footer_padding_top", "footer_padding_bottom", "content_spacing", "section_spacing"]

  /** The fields `updateClinicSettings` may write, in the order it checks them. */
  const ClinicSettingsFields: seq<string> := [
    "clinic_name", "address", "phone", "email", "print_header", "print_header_footer",
    "header_margin_top", "header_margin_bottom", "footer_margin_top", "footer_margin_bottom",
    "page_margin_left", "page_margin_right"]

  /** The assignments for the fields the body carries, in field order. */
  function Supplied(fields: seq<string>, body: Body): seq<Assignment> {
    if fields == [] then []
    else
      var f := fields[|fields| - 1];
      Supplied(fields[..|fields| - 1], body) + (if f in body then [Assignment(f, body[f])] else [])
  }

  /**
   * Every assignment sets a listed field to the body's value for it; every
   * listed field the body carries is assigned; and there is no assignment
   * exactly when the body carries none of the fields.
   */
  lemma {:induction false} SuppliedMeaning(fields: seq<string>, body: Body)
    ensures var u := Supplied(fields, body);
      && |u| <= |fields|
      && (forall k :: 0 <= k < |u| ==> u[k].column in fields && u[k].column in body
                                       && u[k].value == body[u[k].column])
      && (forall f :: f in fields && f in body ==> exists k :: 0 <= k < |u| && u[k].column == f)
      && (u == [] <==> forall f :: f in fields ==> f !in body)
  {
    if fields != [] {
      var init := fields[..|fields| - 1];
      SuppliedMeaning(init, body);
      assert fields == init + [fields[|fields| - 1]];
      var u := Supplied(fields, body);
      var p := Supplied(init, body);
      var f := fields[|fields| - 1];
      forall g | g in fields && g in body
        ensures exists k :: 0 <= k < |u| && u[k].column == g
      {
        if g in init {
          var k :| 0 <= k < |p| && p[k].column == g;
          assert u[k] == p[k];
        } else {
          assert g == f;
          assert u[|u| - 1].column == g;
        }
      }
    }
  }

  /**
   * The `if (field !== undefined) { updateFields.push(...) }` chain: one
   * pass over the fields, keeping those the body carries.
   */
  method CollectUpdates(fields: seq<string>, body: Body) returns (updates: seq<Assignment>)
    ensures updates == Supplied(fields, body)
  {
    updates := [];
    var i := 0;
    while i < |fields|
      invariant 0 <= i <= |fields|
      invariant updates == Supplied(fields[..i], body)
    {
      assert fields[..i + 1][..i] == fields[..i];
      if fields[i] in body {
        updates := updates + [Assignment(fields[i], body[fields[i]])];
      }
      i := i + 1;
    }
    assert fields[..|fields|] == fields;
  }

  /** The columns after running the assignments in order. */
  function Assign(columns: map<string, Nullable>, updates: seq<Assignment>): map<string, Nullable> {
    if updates == [] then columns
    else
      var last := updates[|updates| - 1];
      Assign(columns, updates[..|updates| - 1])[last.column := last.value]
  }

  /**
   * Applying the supplied assignments gives the body's value to every listed
   * field the body carries and leaves every other column as it was.
   */
  lemma {:induction false} AssignSupplied(columns: map<string, Nullable>, fields: seq<string>, body: Body)
    ensures var r := Assign(columns, Supplied(fields, body));
      && (forall c :: c in r <==> c in columns || (c in fields && c in body))
      && (forall c :: c in fields && c in body ==> r[c] == body[c])
      && (forall c :: c in columns && !(c in fields && c in body) ==> r[c] == columns[c])
  {
    if fields != [] {
      var init := fields[..|fields| - 1];
      var f := fields[|fields| - 1];
      AssignSupplied(columns, init, body);
      assert fields == init + [f];
      var u := Supplied(fields, body);
      if f in body {
        assert u[..|u| - 1] == Supplied(init, body);
      } else {
        assert u == Supplied(init, body);
      }
    }
  }

  /** `UPDATE clinic_settings SET ... WHERE id = ?`. */
  function AssignWhere(rows: seq<SettingsRow>, id: Id, updates: seq<Assignment>): (r: seq<SettingsRow>)
    ensures |r| == |rows|
    ensures forall k :: 0 <= k < |rows| && rows[k].id == id ==>
      r[k] == rows[k].(columns := Assign(rows[k].columns, updates))
    ensures forall k :: 0 <= k < |rows| && rows[k].id != id ==> r[k] == rows[k]
  {
    UpdateWhere(rows, (s: SettingsRow) => s.id == id,
                (s: SettingsRow) => s.(columns := Assign(s.columns, updates)))
  }

  /**
   * A partial settings update: 400, changing nothing, when the body carries
   * none of the fields; otherwise the supplied fields are written on the
   * row with id 1 (and on no row if there is none).
   */
  function UpdateSettings(t: Tables, fields: seq<string>, body: Body): Outcome {
    var updates := Supplied(fields, body);
    if updates == [] then Outcome(BadRequest, t)
    else Outcome(Ok, t.(settings := AssignWhere(t.settings, 1, updates)))
  }

  /** The partial update, step by step. */
  method WriteSettings(db: Clinic, fields: seq<string>, body: Body) returns (status: Status)
    modifies db`settings
    ensures Outcome(status, db.Snapshot()) == UpdateSettings(old(db.Snapshot()), fields, body)
  {
    var updates := CollectUpdates(fields, body);
    if |updates| == 0 {
      return BadRequest;
    }
    db.settings := AssignWhere(db.settings, 1, updates);
    return Ok;
  }

  /**
   * The update is refused exactly when no field is supplied; otherwise the
   * row with id 1 takes the supplied values, keeps its other columns, and
   * every other row and table is unchanged.
   */
  lemma UpdateSettingsMeaning(t: Tables, fields: seq<string>, body: Body)
    ensures var o := UpdateSettings(t, fields, body);
      && (o.status == BadRequest <==> forall f :: f in fields ==> f !in body)
      && (o.status == BadRequest ==> o.tables == t)
      && (o.status == Ok ==>
            && o.tables == t.(settings := o.tables.settings)
            && |o.tables.settings| == |t.settings|
            && forall k :: 0 <= k < |t.settings| ==>
                 var before := t.settings[k].columns;
                 var after := o.tables.settings[k].columns;
                 && o.tables.settings[k].id == t.settings[k].id
                 && (t.settings[k].id != 1 ==> after == before)
                 && (t.settings[k].id == 1 ==>
                       && (forall c :: c in fields && c in body ==> c in after && after[c] == body[c])
                       && (forall c :: c in before && !(c in fields && c in body) ==> c in after && after[c] == before[c])))
  {
    SuppliedMeaning(fields, body);
    forall k | 0 <= k < |t.settings| && t.settings[k].id == 1 {
      AssignSupplied(t.settings[k].columns, fields, body);
    }
  }
}
