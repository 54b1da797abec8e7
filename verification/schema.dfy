/** The concrete record types of the genealogy database (collection/schema.py) and the
    registrations their class decorators make at import time. A type's position in
    `Types` is its identity; a type name made of several capitalised words is written as
    the concatenation of those words. No type registers foreign-key names and no field
    has a default. */
module GenealogySchema {
  import opened Wrappers
  import opened Records
  import opened Registry
  import opened Store
  import opened WritePath
  import opened Convert
  import opened ReadPath
  import Naming

  const Country: TypeId := 0
  const University: TypeId := 1
  const MathematicsSubjectClassification: TypeId := 2
  const Dissertation: TypeId := 3
  const Mathematician: TypeId := 4
  const AdvisorRelationship: TypeId := 5
  const WebSource: TypeId := 6
  const Webpage: TypeId := 7
  const MathGenealogyAssociatedLink: TypeId := 8

  const CountryType := RecordType("Country", [
    Field("country_id", Scalar(IntKind)),
    Field("country_name", Scalar(StrKind))])

  const UniversityType := RecordType("University", [
    Field("university_id", Scalar(IntKind)),
    Field("university_name", Scalar(StrKind)),
    Field("country", RecordRef(Country))])

  const MathematicsSubjectClassificationType := RecordType("Mathematics" + "Subject" + "Classification", [
    Field("subject_code", Scalar(IntKind)),
    Field("subject_name", Scalar(StrKind))])

  const DissertationType := RecordType("Dissertation", [
    Field("dissertation_id", Scalar(IntKind)),
    Field("dissertation_title", Scalar(StrKind)),
    Field("dissertation_year", Scalar(IntKind)),
    Field("subject", RecordRef(MathematicsSubjectClassification)),
    Field("university", RecordRef(University))])

  const MathematicianType := RecordType("Mathematician", [
    Field("mathematician_id", Scalar(IntKind)),
    Field("mathematician_name", Scalar(StrKind)),
    Field("birth_date", Scalar(DateKind)),
    Field("death_date", Scalar(DateKind)),
    Field("dissertation", RecordRef(Dissertation))])

  const AdvisorRelationshipType := RecordType("Advisor" + "Relationship", [
    Field("advisor", RecordRef(Mathematician)),
    Field("advisee", RecordRef(Mathematician)),
    Field("university", RecordRef(University))])

  const WebSourceType := RecordType("Web" + "Source", [
    Field("web_source_id", Scalar(IntKind)),
    Field("base_url", Scalar(StrKind))])

  /** `Webpage.content`, a network fetch, is not part of the record. */
  const WebpageType := RecordType("Webpage", [
    Field("webpage_id", Scalar(IntKind)),
    Field("web_source", RecordRef(WebSource)),
    Field("path", Scalar(StrKind)),
    Field("query", Scalar(StrKind)),
    Field("timestamp", Scalar(DateTimeKind))])

  const MathGenealogyAssociatedLinkType := RecordType("Math" + "Genealogy" + "Associated" + "Link", [
    Field("mathematician", RecordRef(Mathematician)),
    Field("webpage", RecordRef(Webpage)),
    Field("href_text", Scalar(StrKind))])

  const Types: Schema := [CountryType, UniversityType, MathematicsSubjectClassificationType,
    DissertationType, MathematicianType, AdvisorRelationshipType, WebSourceType, WebpageType,
    MathGenealogyAssociatedLinkType]

  /** The registry once the module has been imported. */
  const Registered: Metadata := Metadata(
    map[Country := InsertIfNewAltPKElseIgnore, University := InsertIfNewAltPKElseIgnore,
        MathematicsSubjectClassification := InsertIfNewPKElseIgnore, Dissertation := InsertIfNoPK,
        Mathematician := InsertIfNewPKElseIgnore, AdvisorRelationship := InsertIfNewAltPKElseIgnore,
        WebSource := InsertIfNewAltPKElseIgnore, Webpage := InsertIfNewAltPKElseUpdate,
        MathGenealogyAssociatedLink := InsertIfNewAltPKElseUpdate],
    map[MathematicsSubjectClassification := "subject_code"],
    map[],
    map[Country := {"country_name"},
        University := {"university_name", "country_id"},
        MathematicsSubjectClassification := {"subject_name"},
        AdvisorRelationship := {"advisor_id", "advisee_id"},
        WebSource := {"base_url"},
        Webpage := {"web_source_id", "path", "query"},
        MathGenealogyAssociatedLink := {"mathematician_id", "webpage_id", "href_text"}])

  /** A type whose field names are distinct and whose references all point below `t`. */
  predicate ValidAt(ty: RecordType, t: TypeId)
  {
    && DistinctNames(ty.fields)
    && forall i :: 0 <= i < |ty.fields| && ty.fields[i].ty.RecordRef? ==> ty.fields[i].ty.target < t
  }

  /** Field names are distinct within each type and every reference points to an earlier
      type, so nesting is acyclic. */
  lemma TypesValid()
    ensures SchemaValid(Types)
  {
    assert ValidAt(CountryType, Country);
    assert ValidAt(UniversityType, University);
    assert ValidAt(MathematicsSubjectClassificationType, MathematicsSubjectClassification);
    assert ValidAt(DissertationType, Dissertation);
    assert ValidAt(MathematicianType, Mathematician);
    assert ValidAt(AdvisorRelationshipType, AdvisorRelationship);
    assert ValidAt(WebSourceType, WebSource);
    assert ValidAt(WebpageType, Webpage);
    assert ValidAt(MathGenealogyAssociatedLinkType, MathGenealogyAssociatedLink);
    forall t | 0 <= t < |Types|
      ensures ValidAt(Types[t], t)
    {
    }
  }

  /** `Country` registers no key name and its first field is `country_id`. */
  lemma CountryNames()
    ensures Country < |Types| && 0 < |Types[Country].fields| && Country !in Registered.pkNames
    ensures Types[Country].fields[0].name == "country" + "_id"
  {
  }

  /** The derived table names: the words of the type name, lower-cased and joined by
      `_`. */
  lemma CountryTable()
    ensures TableNameOf(Types, Country) == "country"
  {
    Naming.OneWord("Country", "country");
  }

  /** The type `University` is named by one capitalised word whose lower-case form is
      `university`; it registers no key name and its first field is `university_id`. */
  lemma UniversityNames()
    ensures Types[University].name == "University"
    ensures Naming.IsCapWord("University") && "university" == [Naming.ToLower('U')] + "University"[1..]
    ensures University < |Types| && 0 < |Types[University].fields| && University !in Registered.pkNames
    ensures Types[University].fields[0].name == "university" + "_id"
  {
  }

  lemma UniversityTable()
    ensures TableNameOf(Types, University) == "university"
  {
    UniversityNames();
    Naming.OneWord("University", "university");
  }

  lemma MathematicsSubjectClassificationTable()
    ensures TableNameOf(Types, MathematicsSubjectClassification) == "mathematics" + "_" + "subject" + "_" + "classification"
  {
    Naming.ThreeWords("Mathematics", "Subject", "Classification", "mathematics", "subject", "classification");
  }

  /** The type `Dissertation` is named by one capitalised word whose lower-case form is
      `dissertation`; it registers no key name and its first field is `dissertation_id`. */
  lemma DissertationNames()
    ensures Types[Dissertation].name == "Dissertation"
    ensures Naming.IsCapWord("Dissertation") && "dissertation" == [Naming.ToLower('D')] + "Dissertation"[1..]
    ensures Dissertation < |Types| && 0 < |Types[Dissertation].fields| && Dissertation !in Registered.pkNames
    ensures Types[Dissertation].fields[0].name == "dissertation" + "_id"
  {
  }

  lemma DissertationTable()
    ensures TableNameOf(Types, Dissertation) == "dissertation"
  {
    DissertationNames();
    Naming.OneWord("Dissertation", "dissertation");
  }

  /** The type `Mathematician` is named by one capitalised word whose lower-case form is
      `mathematician`; it registers no key name and its first field is `mathematician_id`. */
  lemma MathematicianNames()
    ensures Types[Mathematician].name == "Mathematician"
    ensures Naming.IsCapWord("Mathematician") && "mathematician" == [Naming.ToLower('M')] + "Mathematician"[1..]
    ensures Mathematician < |Types| && 0 < |Types[Mathematician].fields| && Mathematician !in Registered.pkNames
    ensures Types[Mathematician].fields[0].name == "mathematician" + "_id"
  {
  }

  lemma MathematicianTable()
    ensures TableNameOf(Types, Mathematician) == "mathematician"
  {
    MathematicianNames();
    Naming.OneWord("Mathematician", "mathematician");
  }

  lemma AdvisorRelationshipTable()
    ensures TableNameOf(Types, AdvisorRelationship) == "advisor" + "_" + "relationship"
  {
    Naming.TwoWords("Advisor", "Relationship", "advisor", "relationship");
  }

  lemma WebSourceTable()
    ensures TableNameOf(Types, WebSource) == "web" + "_" + "source"
  {
    Naming.TwoWords("Web", "Source", "web", "source");
  }

  /** `Webpage` registers no key name and its first field is `webpage_id`. */
  lemma WebpageNames()
    ensures Webpage < |Types| && 0 < |Types[Webpage].fields| && Webpage !in Registered.pkNames
    ensures Types[Webpage].fields[0].name == "webpage" + "_id"
  {
  }

  lemma WebpageTable()
    ensures TableNameOf(Types, Webpage) == "webpage"
  {
    Naming.OneWord("Webpage", "webpage");
  }

  lemma MathGenealogyAssociatedLinkTable()
    ensures TableNameOf(Types, MathGenealogyAssociatedLink) == "math" + "_" + "genealogy" + "_" + "associated" + "_" + "link"
  {
    Naming.FourWords("Math", "Genealogy", "Associated", "Link", "math", "genealogy", "associated", "link");
  }

  /** The primary keys: the registered `subject_code` for `MathematicsSubjectClassification`,
      the conventional `<table>_id` field for six types, and none for
      `AdvisorRelationship` and `MathGenealogyAssociatedLink`, which have no such field. */
  lemma CountryKey()
    ensures PrimaryKeyName(Types, Registered, Country) == Some("country" + "_id")
  {
    CountryTable();
    CountryNames();
    ConventionalPrimaryKey(Types, Registered, Country, "country", 0);
  }

  lemma UniversityKey()
    ensures PrimaryKeyName(Types, Registered, University) == Some("university" + "_id")
  {
    UniversityTable();
    UniversityNames();
    ConventionalPrimaryKey(Types, Registered, University, "university", 0);
  }

  lemma MathematicsSubjectClassificationKey()
    ensures PrimaryKeyName(Types, Registered, MathematicsSubjectClassification) == Some("subject_code")
  {
  }

  lemma DissertationKey()
    ensures PrimaryKeyName(Types, Registered, Dissertation) == Some("dissertation" + "_id")
  {
    DissertationTable();
    DissertationNames();
    ConventionalPrimaryKey(Types, Registered, Dissertation, "dissertation", 0);
  }

  lemma MathematicianKey()
    ensures PrimaryKeyName(Types, Registered, Mathematician) == Some("mathematician" + "_id")
  {
    MathematicianTable();
    MathematicianNames();
    ConventionalPrimaryKey(Types, Registered, Mathematician, "mathematician", 0);
  }

  lemma AdvisorRelationshipKey()
    ensures PrimaryKeyName(Types, Registered, AdvisorRelationship) == None
  {
    AdvisorRelationshipTable();
    var key := "advisor" + "_" + "relationship" + "_id";
    forall i | 0 <= i < |Types[AdvisorRelationship].fields|
      ensures Types[AdvisorRelationship].fields[i].name != key
    {
      assert |Types[AdvisorRelationship].fields[i].name| < |key|;
    }
  }

  lemma WebSourceKey()
    ensures PrimaryKeyName(Types, Registered, WebSource) == Some("web" + "_" + "source" + "_id")
  {
    WebSourceTable();
    assert Types[WebSource].fields[0].name == "web" + "_" + "source" + "_id";
  }

  lemma WebpageKey()
    ensures PrimaryKeyName(Types, Registered, Webpage) == Some("webpage" + "_id")
  {
    WebpageTable();
    WebpageNames();
    ConventionalPrimaryKey(Types, Registered, Webpage, "webpage", 0);
  }

  lemma MathGenealogyAssociatedLinkKey()
    ensures PrimaryKeyName(Types, Registered, MathGenealogyAssociatedLink) == None
  {
    MathGenealogyAssociatedLinkTable();
    var key := "math" + "_" + "genealogy" + "_" + "associated" + "_" + "link" + "_id";
    forall i | 0 <= i < |Types[MathGenealogyAssociatedLink].fields|
      ensures Types[MathGenealogyAssociatedLink].fields[i].name != key
    {
      assert |Types[MathGenealogyAssociatedLink].fields[i].name| < |key|;
    }
  }

  /** Every registration names fields of its type. */
  lemma RegisteredValid()
    ensures MetadataValid(Types, Registered)
  {
    assert Types[MathematicsSubjectClassification].fields[0].name == "subject_code";
  }

  /** Every type registers an insert mode, so the as-written `_insert_mode` yields `None`
      for all nine, while the corrected lookup returns the registered mode. */
  lemma InsertModesLost()
    ensures forall t :: 0 <= t < |Types| ==> InsertModeAsWritten(Registered, t) == None
    ensures forall t :: 0 <= t < |Types| ==> InsertModeFixed(Registered, t) == Registered.insertModes[t]
  {
    forall t | 0 <= t < |Types|
      ensures t in Registered.insertModes
    {
    }
  }

  /** What `register_alt_pk_names` stores for each class: every name is a field, and a
      record-typed field is stored as its `_id` column. */
  lemma CountryAltKeys()
    ensures forall n :: n in ["country_name"] ==> HasField(Types[Country].fields, n)
    ensures AltKeyColumns(Types[Country].fields, set n | n in ["country_name"]) == {"country_name"}
  {
    var fields := Types[Country].fields;
    assert fields[1].name == "country_name";
    assert AltKeyColumn(fields, "country_name") == "country_name";
    AltKeyColumnsList(fields, ["country_name"], ["country_name"]);
    assert (set c | c in ["country_name"]) == {"country_name"};
  }

  lemma UniversityAltKeys()
    ensures forall n :: n in ["university_name", "country"] ==> HasField(Types[University].fields, n)
    ensures AltKeyColumns(Types[University].fields, set n | n in ["university_name", "country"]) == {"university_name", "country_id"}
  {
    var fields := Types[University].fields;
    assert fields[1].name == "university_name" && fields[2].name == "country";
    assert AltKeyColumn(fields, "university_name") == "university_name";
    assert AltKeyColumn(fields, "country") == "country_id";
    AltKeyColumnsList(fields, ["university_name", "country"], ["university_name", "country_id"]);
    assert (set c | c in ["university_name", "country_id"]) == {"university_name", "country_id"};
  }

  lemma MathematicsSubjectClassificationAltKeys()
    ensures forall n :: n in ["subject_name"] ==> HasField(Types[MathematicsSubjectClassification].fields, n)
    ensures AltKeyColumns(Types[MathematicsSubjectClassification].fields, set n | n in ["subject_name"]) == {"subject_name"}
  {
    var fields := Types[MathematicsSubjectClassification].fields;
    assert fields[1].name == "subject_name";
    assert AltKeyColumn(fields, "subject_name") == "subject_name";
    AltKeyColumnsList(fields, ["subject_name"], ["subject_name"]);
    assert (set c | c in ["subject_name"]) == {"subject_name"};
  }

  lemma AdvisorRelationshipAltKeys()
    ensures forall n :: n in ["advisor", "advisee"] ==> HasField(Types[AdvisorRelationship].fields, n)
    ensures AltKeyColumns(Types[AdvisorRelationship].fields, set n | n in ["advisor", "advisee"]) == {"advisor_id", "advisee_id"}
  {
    var fields := Types[AdvisorRelationship].fields;
    assert fields[0].name == "advisor" && fields[1].name == "advisee";
    assert AltKeyColumn(fields, "advisor") == "advisor_id";
    assert AltKeyColumn(fields, "advisee") == "advisee_id";
    AltKeyColumnsList(fields, ["advisor", "advisee"], ["advisor_id", "advisee_id"]);
    assert (set c | c in ["advisor_id", "advisee_id"]) == {"advisor_id", "advisee_id"};
  }

  lemma WebSourceAltKeys()
    ensures forall n :: n in ["base_url"] ==> HasField(Types[WebSource].fields, n)
    ensures AltKeyColumns(Types[WebSource].fields, set n | n in ["base_url"]) == {"base_url"}
  {
    var fields := Types[WebSource].fields;
    assert fields[1].name == "base_url";
    assert AltKeyColumn(fields, "base_url") == "base_url";
    AltKeyColumnsList(fields, ["base_url"], ["base_url"]);
    assert (set c | c in ["base_url"]) == {"base_url"};
  }

  lemma WebpageAltKeys()
    ensures forall n :: n in ["web_source", "path", "query"] ==> HasField(Types[Webpage].fields, n)
    ensures AltKeyColumns(Types[Webpage].fields, set n | n in ["web_source", "path", "query"]) == {"web_source_id", "path", "query"}
  {
    var fields := Types[Webpage].fields;
    assert fields[1].name == "web_source" && fields[2].name == "path" && fields[3].name == "query";
    assert AltKeyColumn(fields, "web_source") == "web_source_id";
    assert AltKeyColumn(fields, "path") == "path";
    assert AltKeyColumn(fields, "query") == "query";
    AltKeyColumnsList(fields, ["web_source", "path", "query"], ["web_source_id", "path", "query"]);
    assert (set c | c in ["web_source_id", "path", "query"]) == {"web_source_id", "path", "query"};
  }

  lemma MathGenealogyAssociatedLinkAltKeys()
    ensures forall n :: n in ["mathematician", "webpage", "href_text"] ==> HasField(Types[MathGenealogyAssociatedLink].fields, n)
    ensures AltKeyColumns(Types[MathGenealogyAssociatedLink].fields, set n | n in ["mathematician", "webpage", "href_text"]) == {"mathematician_id", "webpage_id", "href_text"}
  {
    var fields := Types[MathGenealogyAssociatedLink].fields;
    assert fields[0].name == "mathematician" && fields[1].name == "webpage" && fields[2].name == "href_text";
    assert AltKeyColumn(fields, "mathematician") == "mathematician_id";
    assert AltKeyColumn(fields, "webpage") == "webpage_id";
    assert AltKeyColumn(fields, "href_text") == "href_text";
    AltKeyColumnsList(fields, ["mathematician", "webpage", "href_text"], ["mathematician_id", "webpage_id", "href_text"]);
    assert (set c | c in ["mathematician_id", "webpage_id", "href_text"]) == {"mathematician_id", "webpage_id", "href_text"};
  }

  /** As written, the two types without a primary key cannot be written: a read-write
      `insert_or_update` of an `AdvisorRelationship` or a `MathGenealogyAssociatedLink`
      raises `TypeError` before anything is written or cached. */
  lemma KeylessWritesFail(st: EngineState, r: Record, check: bool)
    requires Shaped(Types, r) && (r.ty == AdvisorRelationship || r.ty == MathGenealogyAssociatedLink)
    ensures Persist(Env(Types, Registered, false, AsWritten), st, r, check) == Out(Err(TypeError), st)
  {
    AdvisorRelationshipKey();
    MathGenealogyAssociatedLinkKey();
    PersistNoKeyNameRaises(Env(Types, Registered, false, AsWritten), st, r, check);
  }

  /** Neither can they be read, in either build: `get` selects `WHERE None = ?`. The
      schema's validity is `TypesValid`. */
  lemma KeylessReadsFail(env: Env, parsers: IsoParsers, st: StoreState, t: TypeId, key: Value)
    requires env.schema == Types && env.meta == Registered && SchemaValid(env.schema)
    requires t == AdvisorRelationship || t == MathGenealogyAssociatedLink
    ensures Read(env, parsers, st, t, key) == Err(OperationalError)
  {
    AdvisorRelationshipKey();
    MathGenealogyAssociatedLinkKey();
  }

  /** As written, since no class registers foreign-key names, `get` of any type fails with
      `AttributeError` whenever the row exists: only a missing row reads successfully
      (as `None`). */
  lemma FoundRowsFailAsWritten(env: Env, parsers: IsoParsers, st: StoreState, t: TypeId, key: Value)
    requires env.schema == Types && env.meta == Registered && env.build == AsWritten && SchemaValid(env.schema)
    requires t < |Types|
    ensures Read(env, parsers, st, t, key).Ok? ==> Read(env, parsers, st, t, key) == Ok(None)
    ensures SelectRow(st, TableNameOf(Types, t), key).Ok? && SelectRow(st, TableNameOf(Types, t), key).value.Some? ==>
      Read(env, parsers, st, t, key).Err?
  {
    if PrimaryKeyName(Types, Registered, t).Some? && SelectRow(st, TableNameOf(Types, t), key).Ok? && SelectRow(st, TableNameOf(Types, t), key).value.Some? {
      ReadFoundUnregisteredAsWritten(env, parsers, st, t, key);
    }
  }

  /** As written, the `SELECT` of `get` is rejected for every type of the schema, since
      each has at least two fields: `get` raises `OperationalError` before it fetches a
      row, so none of the read-path defects after it is reached. */
  lemma SelectsRejectedAsWritten()
    ensures forall t :: 0 <= t < |Types| ==> SelectListAsWritten(Types[t].fields) == Err(OperationalError)
  {
  }

  /** The decorators of one class, applied bottom-up: `register_pk_name`, then
      `register_alt_pk_names`, then `register_insert_mode`, as the class has them. */
  method DecorateCountry(reg: Registry) returns (o: Outcome)
    requires MetadataValid(Types, reg.Snapshot())
    modifies reg
    ensures MetadataValid(Types, reg.Snapshot())
    ensures o == Pass
    ensures reg.Snapshot() == old(reg.Snapshot()).(
      insertModes := old(reg.insertModes)[Country := InsertIfNewAltPKElseIgnore],
      altPkNames := old(reg.altPkNames)[Country := {"country_name"}])
  {
    CountryAltKeys();
    o := reg.RegisterAltPkNames(Types, Country, ["country_name"]);
    reg.RegisterInsertMode(Types, Country, InsertIfNewAltPKElseIgnore);
  }

  method DecorateUniversity(reg: Registry) returns (o: Outcome)
    requires MetadataValid(Types, reg.Snapshot())
    modifies reg
    ensures MetadataValid(Types, reg.Snapshot())
    ensures o == Pass
    ensures reg.Snapshot() == old(reg.Snapshot()).(
      insertModes := old(reg.insertModes)[University := InsertIfNewAltPKElseIgnore],
      altPkNames := old(reg.altPkNames)[University := {"university_name", "country_id"}])
  {
    UniversityAltKeys();
    o := reg.RegisterAltPkNames(Types, University, ["university_name", "country"]);
    reg.RegisterInsertMode(Types, University, InsertIfNewAltPKElseIgnore);
  }

  method DecorateMathematicsSubjectClassification(reg: Registry) returns (o: Outcome)
    requires MetadataValid(Types, reg.Snapshot())
    modifies reg
    ensures MetadataValid(Types, reg.Snapshot())
    ensures o == Pass
    ensures reg.Snapshot() == old(reg.Snapshot()).(
      insertModes := old(reg.insertModes)[MathematicsSubjectClassification := InsertIfNewPKElseIgnore],
      altPkNames := old(reg.altPkNames)[MathematicsSubjectClassification := {"subject_name"}],
      pkNames := old(reg.pkNames)[MathematicsSubjectClassification := "subject_code"])
  {
    assert Types[MathematicsSubjectClassification].fields[0].name == "subject_code";
    o := reg.RegisterPkName(Types, MathematicsSubjectClassification, "subject_code");
    MathematicsSubjectClassificationAltKeys();
    o := reg.RegisterAltPkNames(Types, MathematicsSubjectClassification, ["subject_name"]);
    reg.RegisterInsertMode(Types, MathematicsSubjectClassification, InsertIfNewPKElseIgnore);
  }

  method DecorateDissertation(reg: Registry)
    requires MetadataValid(Types, reg.Snapshot())
    modifies reg
    ensures MetadataValid(Types, reg.Snapshot())
    ensures reg.Snapshot() == old(reg.Snapshot()).(
      insertModes := old(reg.insertModes)[Dissertation := InsertIfNoPK])
  {
    reg.RegisterInsertMode(Types, Dissertation, InsertIfNoPK);
  }

  method DecorateMathematician(reg: Registry)
    requires MetadataValid(Types, reg.Snapshot())
    modifies reg
    ensures MetadataValid(Types, reg.Snapshot())
    ensures reg.Snapshot() == old(reg.Snapshot()).(
      insertModes := old(reg.insertModes)[Mathematician := InsertIfNewPKElseIgnore])
  {
    reg.RegisterInsertMode(Types, Mathematician, InsertIfNewPKElseIgnore);
  }

  method DecorateAdvisorRelationship(reg: Registry) returns (o: Outcome)
    requires MetadataValid(Types, reg.Snapshot())
    modifies reg
    ensures MetadataValid(Types, reg.Snapshot())
    ensures o == Pass
    ensures reg.Snapshot() == old(reg.Snapshot()).(
      insertModes := old(reg.insertModes)[AdvisorRelationship := InsertIfNewAltPKElseIgnore],
      altPkNames := old(reg.altPkNames)[AdvisorRelationship := {"advisor_id", "advisee_id"}])
  {
    AdvisorRelationshipAltKeys();
    o := reg.RegisterAltPkNames(Types, AdvisorRelationship, ["advisor", "advisee"]);
    reg.RegisterInsertMode(Types, AdvisorRelationship, InsertIfNewAltPKElseIgnore);
  }

  method DecorateWebSource(reg: Registry) returns (o: Outcome)
    requires MetadataValid(Types, reg.Snapshot())
    modifies reg
    ensures MetadataValid(Types, reg.Snapshot())
    ensures o == Pass
    ensures reg.Snapshot() == old(reg.Snapshot()).(
      insertModes := old(reg.insertModes)[WebSource := InsertIfNewAltPKElseIgnore],
      altPkNames := old(reg.altPkNames)[WebSource := {"base_url"}])
  {
    WebSourceAltKeys();
    o := reg.RegisterAltPkNames(Types, WebSource, ["base_url"]);
    reg.RegisterInsertMode(Types, WebSource, InsertIfNewAltPKElseIgnore);
  }

  method DecorateWebpage(reg: Registry) returns (o: Outcome)
    requires MetadataValid(Types, reg.Snapshot())
    modifies reg
    ensures MetadataValid(Types, reg.Snapshot())
    ensures o == Pass
    ensures reg.Snapshot() == old(reg.Snapshot()).(
      insertModes := old(reg.insertModes)[Webpage := InsertIfNewAltPKElseUpdate],
      altPkNames := old(reg.altPkNames)[Webpage := {"web_source_id", "path", "query"}])
  {
    WebpageAltKeys();
    o := reg.RegisterAltPkNames(Types, Webpage, ["web_source", "path", "query"]);
    reg.RegisterInsertMode(Types, Webpage, InsertIfNewAltPKElseUpdate);
  }

  method DecorateMathGenealogyAssociatedLink(reg: Registry) returns (o: Outcome)
    requires MetadataValid(Types, reg.Snapshot())
    modifies reg
    ensures MetadataValid(Types, reg.Snapshot())
    ensures o == Pass
    ensures reg.Snapshot() == old(reg.Snapshot()).(
      insertModes := old(reg.insertModes)[MathGenealogyAssociatedLink := InsertIfNewAltPKElseUpdate],
      altPkNames := old(reg.altPkNames)[MathGenealogyAssociatedLink := {"mathematician_id", "webpage_id", "href_text"}])
  {
    MathGenealogyAssociatedLinkAltKeys();
    o := reg.RegisterAltPkNames(Types, MathGenealogyAssociatedLink, ["mathematician", "webpage", "href_text"]);
    reg.RegisterInsertMode(Types, MathGenealogyAssociatedLink, InsertIfNewAltPKElseUpdate);
  }

  /** Importing the module runs each class's decorators bottom-up, class by class in the
      order of definition. Every name they register is a field, so none raises and the
      registry ends up holding exactly `Registered`. */
  method ImportSchema(reg: Registry) returns (o: Outcome)
    requires reg.Snapshot() == Metadata(map[], map[], map[], map[])
    modifies reg
    ensures o == Pass && reg.Snapshot() == Registered
  {
    o := DecorateCountry(reg);
    o := DecorateUniversity(reg);
    o := DecorateMathematicsSubjectClassification(reg);
    DecorateDissertation(reg);
    DecorateMathematician(reg);
    o := DecorateAdvisorRelationship(reg);
    o := DecorateWebSource(reg);
    o := DecorateWebpage(reg);
    o := DecorateMathGenealogyAssociatedLink(reg);
  }
}
