/**
 * The store of form templates and the lookup that picks the template a query
 * fills in best.
 *
 * A template is the stored record itself: a dictionary from field name to the
 * type tag the field must have, together with the reserved key "name" that
 * holds the template's name. The store keeps its records in insertion order,
 * as the document store behind it returns them.
 */
module Database {
  import opened Wrappers
  import opened Validators

  /** A stored record: "name" and, under every other key, a required type tag. */
  type Template = map<string, string>

  /** The reserved key of a record that holds the template's name. */
  const NameKey := "name"

  /** `form.get('name')` is truthy: the key is present and the name is not empty. */
  predicate Named(t: Template)
  {
    NameKey in t && t[NameKey] != ""
  }

  /** `{k: v for k, v in form.items() if k != 'name'}` */
  function TemplateFields(t: Template): (fields: map<string, string>)
    ensures NameKey !in fields
    ensures forall k :: k in fields <==> k in t && k != NameKey
    ensures forall k :: k in fields ==> fields[k] == t[k]
  {
    t - {NameKey}
  }

  /** `{name: detect_field_type(value) for name, value in fields.items()}` */
  function FieldTypes(fields: map<string, string>): map<string, string>
  {
    map name | name in fields :: DetectFieldType(fields[name])
  }

  /** Every required field of the template is in the query with exactly the required type. */
  predicate Matches(t: Template, types: map<string, string>)
  {
    forall k :: k in TemplateFields(t) ==> k in types && types[k] == TemplateFields(t)[k]
  }

  /** A template the lookup can return: named, matching, with at least one field. */
  predicate Eligible(t: Template, types: map<string, string>)
  {
    Named(t) && Matches(t, types) && |TemplateFields(t)| > 0
  }

  function FieldCount(t: Template): nat
  {
    |TemplateFields(t)|
  }

  /**
   * Index `i` holds the answer: an eligible template whose field count no
   * eligible template exceeds, and that every earlier eligible template falls
   * short of (the first one wins a tie).
   */
  predicate IsBestAt(forms: seq<Template>, types: map<string, string>, i: int)
  {
    0 <= i < |forms| && Eligible(forms[i], types) &&
    (forall j :: 0 <= j < |forms| && Eligible(forms[j], types) ==> FieldCount(forms[j]) <= FieldCount(forms[i])) &&
    (forall j :: 0 <= j < i && Eligible(forms[j], types) ==> FieldCount(forms[j]) < FieldCount(forms[i]))
  }

  /** The scan's accumulator: `best_match` and `best_match_field_count`. */
  datatype Best = Best(name: Option<string>, count: nat)

  /** One iteration of the scan over the stored templates. */
  function Step(b: Best, t: Template, types: map<string, string>): Best
  {
    if !Named(t) then b
    else if Matches(t, types) && FieldCount(t) > b.count then Best(Some(t[NameKey]), FieldCount(t))
    else b
  }

  /** The accumulator after scanning `forms` left to right from `Best(None, 0)`. */
  function Scan(forms: seq<Template>, types: map<string, string>): Best
  {
    if forms == [] then Best(None, 0)
    else Step(Scan(forms[..|forms| - 1], types), forms[|forms| - 1], types)
  }

  /** What find_matching_form returns for a query whose detected types are `types`. */
  function MatchOf(forms: seq<Template>, types: map<string, string>): Option<string>
  {
    Scan(forms, types).name
  }

  /**
   * What the scan's accumulator means for the templates seen so far: no name is
   * kept and the count is 0 while nothing is eligible; otherwise the kept name
   * is that of the best index and the count its field count.
   */
  ghost predicate Summarizes(forms: seq<Template>, types: map<string, string>, b: Best)
  {
    (b.name.None? <==> forall j :: 0 <= j < |forms| ==> !Eligible(forms[j], types)) &&
    (b.name.None? ==> b.count == 0) &&
    (b.name.Some? ==>
      exists i :: IsBestAt(forms, types, i) && b.name.value == forms[i][NameKey] && b.count == FieldCount(forms[i]))
  }

  /** A template that beats the accumulator becomes the best index. */
  lemma StepTakes(init: seq<Template>, t: Template, types: map<string, string>, b: Best)
    requires Summarizes(init, types, b)
    requires Eligible(t, types) && FieldCount(t) > b.count
    ensures IsBestAt(init + [t], types, |init|)
  {
    var forms := init + [t];
    if b.name.Some? {
      var i :| IsBestAt(init, types, i) && b.count == FieldCount(init[i]);
      forall j | 0 <= j < |forms| && Eligible(forms[j], types)
        ensures FieldCount(forms[j]) < FieldCount(t) || j == |init|
      {
        if j < |init| { assert forms[j] == init[j]; }
      }
    } else {
      forall j | 0 <= j < |init| ensures !Eligible(forms[j], types) {
        assert forms[j] == init[j];
      }
    }
  }

  /** A template that does not beat the accumulator leaves the best index where it was. */
  lemma StepKeeps(init: seq<Template>, t: Template, types: map<string, string>, i: int)
    requires IsBestAt(init, types, i)
    requires Eligible(t, types) ==> FieldCount(t) <= FieldCount(init[i])
    ensures IsBestAt(init + [t], types, i)
  {
    var forms := init + [t];
    forall j | 0 <= j < |forms| && Eligible(forms[j], types)
      ensures FieldCount(forms[j]) <= FieldCount(forms[i])
    {
      if j < |init| { assert forms[j] == init[j]; }
    }
  }

  /** One step of the scan keeps the accumulator's meaning. */
  lemma StepSummarizes(init: seq<Template>, t: Template, types: map<string, string>, b: Best)
    requires Summarizes(init, types, b)
    ensures Summarizes(init + [t], types, Step(b, t, types))
  {
    var forms := init + [t];
    if Eligible(t, types) && FieldCount(t) > b.count {
      StepTakes(init, t, types, b);
    } else if b.name.Some? {
      var i :| IsBestAt(init, types, i) && b.name.value == init[i][NameKey] && b.count == FieldCount(init[i]);
      StepKeeps(init, t, types, i);
    } else {
      forall j | 0 <= j < |forms| ensures !Eligible(forms[j], types) {
        if j < |init| { assert forms[j] == init[j]; }
      }
    }
  }

  /** The scan's invariant, by induction on the templates scanned. */
  lemma {:induction false} ScanInvariant(forms: seq<Template>, types: map<string, string>)
    ensures Summarizes(forms, types, Scan(forms, types))
  {
    if forms != [] {
      var init, t := forms[..|forms| - 1], forms[|forms| - 1];
      ScanInvariant(init, types);
      StepSummarizes(init, t, types, Scan(init, types));
      assert init + [t] == forms;
    }
  }

  /** At most one index holds the answer. */
  lemma BestIsUnique(forms: seq<Template>, types: map<string, string>, i: int, j: int)
    requires IsBestAt(forms, types, i) && IsBestAt(forms, types, j)
    ensures i == j
  {
  }

  /**
   * The lookup's contract: no answer exactly when no named template with at
   * least one field matches; otherwise the name of the best index.
   */
  lemma MatchOfIsBest(forms: seq<Template>, types: map<string, string>)
    ensures MatchOf(forms, types).None? <==> forall j :: 0 <= j < |forms| ==> !Eligible(forms[j], types)
    ensures MatchOf(forms, types).Some? ==>
      exists i :: IsBestAt(forms, types, i) && MatchOf(forms, types).value == forms[i][NameKey]
  {
    ScanInvariant(forms, types);
  }

  /** Whatever the lookup returns is the non-empty name of a named, matching stored template. */
  lemma MatchOfIsStoredName(forms: seq<Template>, types: map<string, string>)
    requires MatchOf(forms, types).Some?
    ensures MatchOf(forms, types).value != ""
    ensures exists i :: (0 <= i < |forms| && Named(forms[i]) && Matches(forms[i], types) &&
                         forms[i][NameKey] == MatchOf(forms, types).value)
  {
    MatchOfIsBest(forms, types);
    var i :| IsBestAt(forms, types, i) && MatchOf(forms, types).value == forms[i][NameKey];
  }

  /** Query fields that a template does not require never change whether it matches. */
  lemma ExtraFieldsAreInert(t: Template, types: map<string, string>, k: string, ty: string)
    requires k !in TemplateFields(t)
    ensures Matches(t, types[k := ty]) <==> Matches(t, types)
    ensures Matches(t, types - {k}) <==> Matches(t, types)
  {
  }

  /** The in-memory table of templates, in stored order. */
  class FormDatabase {
    var forms: seq<Template>

    /** Opens the store; `stored` is what it already holds. */
    constructor (stored: seq<Template>)
      ensures forms == stored
    {
      forms := stored;
    }

    /** add_form: the record is appended and nothing else changes. */
    method AddForm(formTemplate: Template)
      modifies this
      ensures forms == old(forms) + [formTemplate]
    {
      forms := forms + [formTemplate];
    }

    /** get_all_forms: every stored record, in stored order. */
    method GetAllForms() returns (all: seq<Template>)
      ensures all == forms
    {
      all := forms;
    }

    /** clear: the table is emptied. */
    method Clear()
      modifies this
      ensures forms == []
    {
      forms := [];
    }

    /**
     * find_matching_form: one left-to-right scan over the stored templates,
     * keeping the first template with the strictly largest field count among
     * those whose every field the query supplies with the same detected type.
     */
    method FindMatchingForm(fields: map<string, string>) returns (bestMatch: Option<string>)
      ensures bestMatch == MatchOf(forms, FieldTypes(fields))
    {
      var fieldTypes := map name | name in fields :: DetectFieldType(fields[name]);
      var allForms := forms;
      bestMatch := None;
      var bestMatchFieldCount: nat := 0;
      for n := 0 to |allForms|
        invariant Best(bestMatch, bestMatchFieldCount) == Scan(allForms[..n], fieldTypes)
      {
        assert allForms[..n + 1][..n] == allForms[..n];
        var form := allForms[n];
        if !(NameKey in form && form[NameKey] != "") {
          continue;
        }
        var formName := form[NameKey];
        var formFields := form - {NameKey};
        var isMatch := true;
        var remaining := formFields.Keys;
        while remaining != {}
          invariant remaining <= formFields.Keys
          invariant forall k :: k in formFields && k !in remaining ==> k in fieldTypes && fieldTypes[k] == formFields[k]
          decreases |remaining|
        {
          var fieldName :| fieldName in remaining;
          if fieldName !in fieldTypes {
            isMatch := false;
            break;
          }
          if fieldTypes[fieldName] != formFields[fieldName] {
            isMatch := false;
            break;
          }
          remaining := remaining - {fieldName};
        }
        assert isMatch == Matches(form, fieldTypes);
        if isMatch {
          var fieldCount := |formFields|;
          if fieldCount > bestMatchFieldCount {
            bestMatch := Some(formName);
            bestMatchFieldCount := fieldCount;
          }
        }
      }
      assert allForms[..|allForms|] == allForms;
    }
  }
}
