/**
 * One Nurse Cadet Corps record card: the record built from the extraction
 * service's JSON answer, and the output schema the service is asked to follow.
 */
module Nurse {
  import opened Wrappers

  /** A decoded JSON object as the record sees it: each value a string, or `None` for JSON null. */
  type JsonObject = map<string, Option<string>>

  /** The record's attributes, in the order the constructor assigns them. */
  datatype Attribute =
    | CardType | SerialNumber
    | LastName | FirstName | MiddleName
    | HomeStreet | HomeCity | HomeCounty | HomeState
    | DateOfBirth
    | AdmissionCorpDate | AdmissionSchoolDate | TerminationDate | TerminationType
    | SchoolName | SchoolCity | SchoolState
    | File
  {
    /** The attribute's Python name, which is also its JSON key and its CSV column. */
    function Name(): string
    {
      match this
      case CardType => "card_type"
      case SerialNumber => "serial_number"
      case LastName => "last_name"
      case FirstName => "first_name"
      case MiddleName => "middle_name"
      case HomeStreet => "home_street"
      case HomeCity => "home_city"
      case HomeCounty => "home_county"
      case HomeState => "home_state"
      case DateOfBirth => "date_of_birth"
      case AdmissionCorpDate => "admission_corp_date"
      case AdmissionSchoolDate => "admission_school_date"
      case TerminationDate => "termination_date"
      case TerminationType => "termination_type"
      case SchoolName => "school_name"
      case SchoolCity => "school_city"
      case SchoolState => "school_state"
      case File => "file"
    }
  }

  /** The 17 attributes read from the JSON object, in the order they are read. */
  const CADET_ATTRIBUTES: seq<Attribute> := [
    CardType, SerialNumber,
    LastName, FirstName, MiddleName,
    HomeStreet, HomeCity, HomeCounty, HomeState,
    DateOfBirth,
    AdmissionCorpDate, AdmissionSchoolDate, TerminationDate, TerminationType,
    SchoolName, SchoolCity, SchoolState
  ]

  /** All 18 attributes: the 17 read from JSON, then the source path. */
  const ATTRIBUTES: seq<Attribute> := CADET_ATTRIBUTES + [File]

  /** The names of `attrs`, in order. */
  function Names(attrs: seq<Attribute>): seq<string>
  {
    seq(|attrs|, i requires 0 <= i < |attrs| => attrs[i].Name())
  }

  /** Every attribute is listed, and only `File` is not read from JSON. */
  lemma AttributesListed(a: Attribute)
    ensures a in ATTRIBUTES
    ensures a in CADET_ATTRIBUTES <==> a != File
  {
  }

  /** Each attribute read from JSON has its name among the names read. */
  lemma NameListed(a: Attribute)
    requires a != File
    ensures a.Name() in Names(CADET_ATTRIBUTES)
  {
    AttributesListed(a);
    var i :| 0 <= i < |CADET_ATTRIBUTES| && CADET_ATTRIBUTES[i] == a;
    assert Names(CADET_ATTRIBUTES)[i] == a.Name();
  }

  /** No two attributes share a name. */
  lemma NamesDistinct(a: Attribute, b: Attribute)
    ensures a.Name() == b.Name() ==> a == b
  {
  }

  datatype NurseCadet = NurseCadet(
    cardType: Option<string>,
    serialNumber: Option<string>,
    lastName: Option<string>,
    firstName: Option<string>,
    middleName: Option<string>,
    homeStreet: Option<string>,
    homeCity: Option<string>,
    homeCounty: Option<string>,
    homeState: Option<string>,
    dateOfBirth: Option<string>,
    admissionCorpDate: Option<string>,
    admissionSchoolDate: Option<string>,
    terminationDate: Option<string>,
    terminationType: Option<string>,
    schoolName: Option<string>,
    schoolCity: Option<string>,
    schoolState: Option<string>,
    file: string)
  {
    /** `getattr(self, a.Name())`; the path is always present. */
    function Field(a: Attribute): Option<string>
    {
      match a
      case CardType => cardType
      case SerialNumber => serialNumber
      case LastName => lastName
      case FirstName => firstName
      case MiddleName => middleName
      case HomeStreet => homeStreet
      case HomeCity => homeCity
      case HomeCounty => homeCounty
      case HomeState => homeState
      case DateOfBirth => dateOfBirth
      case AdmissionCorpDate => admissionCorpDate
      case AdmissionSchoolDate => admissionSchoolDate
      case TerminationDate => terminationDate
      case TerminationType => terminationType
      case SchoolName => schoolName
      case SchoolCity => schoolCity
      case SchoolState => schoolState
      case File => Some(file)
    }
  }

  /** Two records with the same value for every attribute are the same record. */
  lemma FieldsDetermine(x: NurseCadet, y: NurseCadet)
    requires forall a: Attribute :: x.Field(a) == y.Field(a)
    ensures x == y
  {
    assert x.Field(File) == y.Field(File);
    assert x.Field(CardType) == y.Field(CardType);
    assert x.Field(SerialNumber) == y.Field(SerialNumber);
    assert x.Field(LastName) == y.Field(LastName);
    assert x.Field(FirstName) == y.Field(FirstName);
    assert x.Field(MiddleName) == y.Field(MiddleName);
    assert x.Field(HomeStreet) == y.Field(HomeStreet);
    assert x.Field(HomeCity) == y.Field(HomeCity);
    assert x.Field(HomeCounty) == y.Field(HomeCounty);
    assert x.Field(HomeState) == y.Field(HomeState);
    assert x.Field(DateOfBirth) == y.Field(DateOfBirth);
    assert x.Field(AdmissionCorpDate) == y.Field(AdmissionCorpDate);
    assert x.Field(AdmissionSchoolDate) == y.Field(AdmissionSchoolDate);
    assert x.Field(TerminationDate) == y.Field(TerminationDate);
    assert x.Field(TerminationType) == y.Field(TerminationType);
    assert x.Field(SchoolName) == y.Field(SchoolName);
    assert x.Field(SchoolCity) == y.Field(SchoolCity);
    assert x.Field(SchoolState) == y.Field(SchoolState);
  }

  /** `data.get(key)`: the value under `key`, or `None` when the key is absent. */
  function Get(data: JsonObject, key: string): Option<string>
  {
    if key in data then data[key] else None
  }

  /** The attribute dictionary of `c` over `attrs`, one entry added per attribute in order. */
  function VarsOf(c: NurseCadet, attrs: seq<Attribute>): map<string, Option<string>>
  {
    if attrs == [] then map[]
    else VarsOf(c, attrs[..|attrs| - 1])[attrs[|attrs| - 1].Name() := c.Field(attrs[|attrs| - 1])]
  }

  /** Each listed attribute is in the dictionary under its name, with its value. */
  lemma {:induction false} VarsOfLookup(c: NurseCadet, attrs: seq<Attribute>, a: Attribute)
    requires a in attrs
    ensures a.Name() in VarsOf(c, attrs) && VarsOf(c, attrs)[a.Name()] == c.Field(a)
  {
    var last, prefix := attrs[|attrs| - 1], attrs[..|attrs| - 1];
    if a != last {
      var i :| 0 <= i < |attrs| && attrs[i] == a;
      assert prefix[i] == a;
      VarsOfLookup(c, prefix, a);
      NamesDistinct(a, last);
    }
  }

  /** The dictionary holds no key but the names of the listed attributes. */
  lemma {:induction false} VarsOfKeys(c: NurseCadet, attrs: seq<Attribute>, k: string)
    requires k in VarsOf(c, attrs)
    ensures k in Names(attrs)
  {
    var last, prefix := attrs[|attrs| - 1], attrs[..|attrs| - 1];
    if k != last.Name() {
      VarsOfKeys(c, prefix, k);
      var i :| 0 <= i < |prefix| && Names(prefix)[i] == k;
      assert Names(attrs)[i] == k;
    } else {
      assert Names(attrs)[|attrs| - 1] == k;
    }
  }

  /** `vars(cadet)`: one entry per attribute, keyed by its name. */
  function Vars(c: NurseCadet): (m: map<string, Option<string>>)
    ensures forall k :: k in m ==> k in Names(ATTRIBUTES)
    ensures forall a: Attribute :: a.Name() in m && m[a.Name()] == c.Field(a)
  {
    var m := VarsOf(c, ATTRIBUTES);
    assert forall k :: k in m ==> k in Names(ATTRIBUTES) by {
      forall k | k in m ensures k in Names(ATTRIBUTES) { VarsOfKeys(c, ATTRIBUTES, k); }
    }
    assert forall a: Attribute :: a.Name() in m && m[a.Name()] == c.Field(a) by {
      forall a: Attribute ensures a.Name() in m && m[a.Name()] == c.Field(a) {
        AttributesListed(a);
        VarsOfLookup(c, ATTRIBUTES, a);
      }
    }
    m
  }

  /**
   * `NurseCadet(data, filename)`: each of the 17 attributes takes the
   * object's value under its name, or `None` when that key is missing;
   * `file` is the path.
   */
  function FromData(data: JsonObject, filename: string): (c: NurseCadet)
    ensures forall a: Attribute :: a != File ==> c.Field(a) == Get(data, a.Name())
    ensures c.file == filename
  {
    NurseCadet(
      Get(data, "card_type"), Get(data, "serial_number"),
      Get(data, "last_name"), Get(data, "first_name"), Get(data, "middle_name"),
      Get(data, "home_street"), Get(data, "home_city"),
      Get(data, "home_county"), Get(data, "home_state"),
      Get(data, "date_of_birth"),
      Get(data, "admission_corp_date"), Get(data, "admission_school_date"),
      Get(data, "termination_date"), Get(data, "termination_type"),
      Get(data, "school_name"), Get(data, "school_city"), Get(data, "school_state"),
      filename)
  }

  /** A key outside the 17 names is not the name of any attribute read from JSON. */
  lemma OtherKeyNamesNoAttribute(key: string, a: Attribute)
    requires key !in Names(CADET_ATTRIBUTES) && a != File
    ensures key != a.Name()
  {
    NameListed(a);
  }

  /** Keys that name none of the 17 attributes have no effect on the record. */
  lemma FromDataIgnoresOtherKeys(data: JsonObject, key: string, value: Option<string>, filename: string)
    requires key !in Names(CADET_ATTRIBUTES)
    ensures FromData(data[key := value], filename) == FromData(data, filename)
  {
    var d := data[key := value];
    var x, y := FromData(d, filename), FromData(data, filename);
    forall a: Attribute ensures x.Field(a) == y.Field(a) {
      if a != File {
        OtherKeyNamesNoAttribute(key, a);
        assert Get(d, a.Name()) == Get(data, a.Name());
      }
    }
    FieldsDetermine(x, y);
  }

  /** Rebuilding a record from its own attribute dictionary and path gives the record back. */
  lemma FromDataOfVars(c: NurseCadet)
    ensures FromData(Vars(c), c.file) == c
  {
    var d := FromData(Vars(c), c.file);
    forall a: Attribute ensures d.Field(a) == c.Field(a) {
    }
    FieldsDetermine(d, c);
  }

  /** One property of the response schema: its JSON type and, when closed, its allowed values. */
  datatype PropertySchema = PropertySchema(kind: string, allowed: Option<seq<string>>)

  /** The response schema: an object with named properties, some of them required. */
  datatype ObjectSchema = ObjectSchema(kind: string, properties: seq<(string, PropertySchema)>, required: seq<string>)

  const CARD_TYPES: seq<string> := ["300A", "300A Revised", "null"]
  const TERMINATION_TYPES: seq<string> := ["Graduation", "Withdrawal", "null"]

  /** The property names of a schema, in declaration order. */
  function PropertyNames(props: seq<(string, PropertySchema)>): seq<string>
  {
    seq(|props|, i requires 0 <= i < |props| => props[i].0)
  }

  /** The closed set of values a property allows, if it has one. */
  function ClosedValues(a: Attribute): Option<seq<string>>
  {
    match a
    case CardType => Some(CARD_TYPES)
    case TerminationType => Some(TERMINATION_TYPES)
    case _ => None
  }

  /** `NurseCadet.get_response_schema()`: an object schema with 17 properties, none of them required. */
  function ResponseSchema(): (s: ObjectSchema)
    ensures s.kind == "OBJECT" && s.required == []
    ensures |s.properties| == |CADET_ATTRIBUTES|
  {
    var text := PropertySchema("STRING", None);
    ObjectSchema(
      "OBJECT",
      [
        ("card_type", PropertySchema("STRING", Some(CARD_TYPES))),
        ("serial_number", text),
        ("last_name", text),
        ("first_name", text),
        ("middle_name", text),
        ("home_street", text),
        ("home_city", text),
        ("home_county", text),
        ("home_state", text),
        ("date_of_birth", text),
        ("admission_corp_date", text),
        ("admission_school_date", text),
        ("termination_date", text),
        ("termination_type", PropertySchema("STRING", Some(TERMINATION_TYPES))),
        ("school_name", text),
        ("school_city", text),
        ("school_state", text)
      ],
      [])
  }

  /** The schema declares exactly the 17 keys the record reads, in the order it reads them. */
  lemma SchemaNamesAreRecordKeys()
    ensures PropertyNames(ResponseSchema().properties) == Names(CADET_ATTRIBUTES)
  {
    SchemaNamesHead();
    SchemaNamesMiddle();
    SchemaNamesTail();
    SameNames(ResponseSchema().properties, CADET_ATTRIBUTES);
  }

  // The positions are checked in three groups: one group over all 17 is too costly for the solver.

  /** Schema properties 0 to 5 are named like the record's attributes at the same positions. */
  lemma SchemaNamesHead()
    ensures forall i :: 0 <= i < 6 ==> ResponseSchema().properties[i].0 == CADET_ATTRIBUTES[i].Name()
  {
  }

  /** Schema properties 6 to 11 are named like the record's attributes at the same positions. */
  lemma SchemaNamesMiddle()
    ensures forall i :: 6 <= i < 12 ==> ResponseSchema().properties[i].0 == CADET_ATTRIBUTES[i].Name()
  {
  }

  /** Schema properties 12 to 16 are named like the record's attributes at the same positions. */
  lemma SchemaNamesTail()
    ensures forall i :: 12 <= i < 17 ==> ResponseSchema().properties[i].0 == CADET_ATTRIBUTES[i].Name()
  {
  }

  /** Properties named like a list of attributes, position by position, have those attributes' names. */
  lemma SameNames(props: seq<(string, PropertySchema)>, attrs: seq<Attribute>)
    requires |props| == |attrs|
    requires forall i :: 0 <= i < |props| ==> props[i].0 == attrs[i].Name()
    ensures PropertyNames(props) == Names(attrs)
  {
    assert forall i :: 0 <= i < |props| ==> PropertyNames(props)[i] == Names(attrs)[i];
  }

  /** Every property is a string; `card_type` and `termination_type` are closed to their three values, the rest are open. */
  lemma SchemaPropertyTypes()
    ensures forall i :: 0 <= i < |ResponseSchema().properties| ==>
      ResponseSchema().properties[i].1 == PropertySchema("STRING", ClosedValues(CADET_ATTRIBUTES[i]))
  {
  }

  /** A value the property admits: null, or any string when open, or one of the listed strings when closed. */
  predicate Admits(p: PropertySchema, v: Option<string>)
  {
    v.None? || p.allowed.None? || v.value in p.allowed.value
  }

  /**
   * A JSON object that follows the schema: every required key present, and
   * every declared property that is present holds an admitted value. Keys
   * the schema does not declare are allowed.
   */
  predicate Conforms(s: ObjectSchema, data: JsonObject)
  {
    (forall k :: k in s.required ==> k in data) &&
    forall i :: 0 <= i < |s.properties| && s.properties[i].0 in data ==>
      Admits(s.properties[i].1, data[s.properties[i].0])
  }

  /** In a schema laid out like the response schema, a conforming value of a closed attribute is one of its allowed values. */
  lemma ClosedValueAdmitted(s: ObjectSchema, data: JsonObject, a: Attribute)
    requires Conforms(s, data)
    requires PropertyNames(s.properties) == Names(CADET_ATTRIBUTES)
    requires forall i :: 0 <= i < |s.properties| ==>
      s.properties[i].1 == PropertySchema("STRING", ClosedValues(CADET_ATTRIBUTES[i]))
    requires a.Name() in data && data[a.Name()].Some? && ClosedValues(a).Some?
    ensures data[a.Name()].value in ClosedValues(a).value
  {
    AttributesListed(a);
    var i :| 0 <= i < |CADET_ATTRIBUTES| && CADET_ATTRIBUTES[i] == a;
    assert PropertyNames(s.properties)[i] == Names(CADET_ATTRIBUTES)[i];
    assert s.properties[i].0 == a.Name();
    assert Admits(s.properties[i].1, data[a.Name()]);
  }

  /**
   * A record built from an answer that follows the response schema holds, in
   * each closed attribute (`card_type`, `termination_type`), either nothing
   * or one of that attribute's allowed values.
   */
  lemma ConformingRecordEnums(data: JsonObject, filename: string, a: Attribute)
    requires Conforms(ResponseSchema(), data)
    requires ClosedValues(a).Some?
    ensures var v := FromData(data, filename).Field(a); v.None? || v.value in ClosedValues(a).value
  {
    var s := ResponseSchema();
    SchemaNamesAreRecordKeys();
    SchemaPropertyTypes();
    var v := FromData(data, filename).Field(a);
    assert v == Get(data, a.Name());
    if v.Some? {
      assert a.Name() in data && data[a.Name()].Some?;
      ClosedValueAdmitted(s, data, a);
    }
  }
}
