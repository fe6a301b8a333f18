/**
  * The profile form's submit preparation (frontend/src/pages/ProfilePage.tsx,
  * `cleanProfileData`): turns the form's values into the request body sent to the
  * profile endpoints.
  */
module ProfilePage {
  import opened Wrappers
  import opened Entities
  import opened ProfileDto

  /** A form value: a JSON value, or a field the form never set. */
  datatype FormValue = Defined(v: Value) | Undefined

  /** Columns the server owns; an update body never carries them. */
  const METADATA_FIELDS: set<string> := {"id", "userId", "createdAt", "updatedAt", "tags"}

  /** `value === "" || value === null || value === undefined`. */
  predicate IsBlank(v: FormValue) {
    v == Undefined || v == Defined(Null) || v == Defined(Str(""))
  }

  predicate IsDateField(key: string) {
    key == "dateOfBirth" || key == "joinDate"
  }

  /**
    * What one form entry becomes in the body, None when it is left out. `parseDate`
    * stands for `new Date(value)` followed by the `isNaN(getTime())` test, `toIso` for
    * `toISOString()`.
    */
  function CleanEntry(key: string, v: FormValue, isUpdate: bool,
                      parseDate: Value -> Option<Time>, toIso: Time -> string): Option<Value>
  {
    if isUpdate && key in METADATA_FIELDS then None
    else if IsBlank(v) then None
    else if IsDateField(key) then
      (if parseDate(v.v).Some? then Some(Str(toIso(parseDate(v.v).value))) else None)
    else Some(v.v)
  }

  /** The body built from a whole form. */
  function Cleaned(data: map<string, FormValue>, isUpdate: bool,
                   parseDate: Value -> Option<Time>, toIso: Time -> string): Body
  {
    map key | key in data && CleanEntry(key, data[key], isUpdate, parseDate, toIso).Some?
      :: CleanEntry(key, data[key], isUpdate, parseDate, toIso).value
  }

  /** `cleanProfileData(data, isUpdate)`: one pass over the form's keys, copying each kept
      entry into a fresh body. */
  method CleanProfileData(data: map<string, FormValue>, isUpdate: bool,
                          parseDate: Value -> Option<Time>, toIso: Time -> string)
    returns (cleaned: Body)
    ensures cleaned == Cleaned(data, isUpdate, parseDate, toIso)
    ensures cleaned.Keys <= data.Keys
    ensures isUpdate ==> cleaned.Keys !! METADATA_FIELDS
    ensures forall key :: key in data && IsBlank(data[key]) ==> key !in cleaned
    ensures forall key ::
      (key in data && !IsBlank(data[key]) && !IsDateField(key) && !(isUpdate && key in METADATA_FIELDS))
      ==> key in cleaned && cleaned[key] == data[key].v
    ensures forall key :: key in data && !IsBlank(data[key]) && IsDateField(key) ==>
      (key in cleaned <==> parseDate(data[key].v).Some?)
    ensures forall key :: key in cleaned && IsDateField(key) ==>
      cleaned[key] == Str(toIso(parseDate(data[key].v).value))
  {
    cleaned := map[];
    var rest := data.Keys;
    while rest != {}
      invariant rest <= data.Keys
      invariant forall key :: key in cleaned <==>
        key in data && key !in rest && CleanEntry(key, data[key], isUpdate, parseDate, toIso).Some?
      invariant forall key :: key in cleaned ==>
        cleaned[key] == CleanEntry(key, data[key], isUpdate, parseDate, toIso).value
      decreases rest
    {
      var key :| key in rest;
      rest := rest - {key};
      if isUpdate && key in METADATA_FIELDS {
        continue;
      }
      var value := data[key];
      if !IsBlank(value) {
        if IsDateField(key) {
          var date := parseDate(value.v);
          if date.Some? {
            cleaned := cleaned[key := Str(toIso(date.value))];
          }
        } else {
          cleaned := cleaned[key := value.v];
        }
      }
    }
  }

  /** A body read back as a form: every property set. */
  function AsForm(body: Body): map<string, FormValue> {
    map key | key in body :: Defined(body[key])
  }

  /** Cleaning a body that was already cleaned leaves it as it is, provided the ISO form
      of an instant parses back to that instant. */
  lemma CleanedIsStable(data: map<string, FormValue>, isUpdate: bool,
                        parseDate: Value -> Option<Time>, toIso: Time -> string)
    requires forall t: Time :: toIso(t) != "" && parseDate(Str(toIso(t))) == Some(t)
    ensures Cleaned(AsForm(Cleaned(data, isUpdate, parseDate, toIso)), isUpdate, parseDate, toIso)
         == Cleaned(data, isUpdate, parseDate, toIso)
  {
    var once := Cleaned(data, isUpdate, parseDate, toIso);
    var twice := Cleaned(AsForm(once), isUpdate, parseDate, toIso);
    forall key | key in once
      ensures CleanEntry(key, Defined(once[key]), isUpdate, parseDate, toIso) == Some(once[key])
    {
      if IsDateField(key) {
        var t := parseDate(data[key].v).value;
        assert once[key] == Str(toIso(t));
        assert parseDate(Str(toIso(t))) == Some(t);
      }
    }
    assert twice.Keys == once.Keys;
  }
}
