/**
 * The data-shaping helpers of the template server (server.js): the join of
 * relational rows into the application's template shape, the `ext_` id
 * convention for templates kept by the external service, and the rules by
 * which the configuration routes read and merge a template's metadata.
 * Database calls and HTTP plumbing are not modelled: the routes' inputs
 * are the rows the stored procedures return and the parsed request body,
 * and their outputs are the status and the body or the stored value.
 */
module Server {

  import opened Common
  import opened Text

  /** `x || d` on a string that may be absent. */
  function OrElse(s: Option<string>, d: string): (r: string)
    ensures Truthy(s) ==> r == s.value
    ensures !Truthy(s) ==> r == d
  {
    if Truthy(s) then s.value else d
  }

  // ------------------------------------------------------------ transformTemplateData

  datatype DbTemplate = DbTemplate(id: nat, name: string, description: Option<string>,
                                   domainName: Option<string>, createdAt: string)

  /** A section row; absent or null columns are None. */
  datatype DbSection = DbSection(id: nat, templateId: nat, name: string, description: Option<string>,
                                 sectionType: Option<string>, isDisabled: Option<int>, parentSectionId: Option<nat>)

  /** A field row. */
  datatype DbField = DbField(sectionId: nat, fieldName: string, typeName: Option<string>,
                             maxLength: Option<int>, isRequired: Option<int>)

  datatype AppField = AppField(name: string, dataType: string, length: string, required: bool)

  datatype AppSection = AppSection(id: string, name: string, description: string, kind: string, disabled: bool,
                                   fields: seq<AppField>, children: seq<AppSection>, parentId: Option<string>)

  datatype AppTemplate = AppTemplate(id: string, name: string, description: string, domain: string,
                                     created: string, sections: seq<AppSection>)

  /** A number's `toString()` when it is truthy, else the fallback. */
  function NumberText(n: Option<int>): Option<string> {
    if n.Some? && n.value != 0 then Some(IntText(n.value)) else None
  }

  function AppFieldOf(f: DbField): AppField {
    AppField(f.fieldName, OrElse(f.typeName, "text"), NumberText(f.maxLength).GetOr(""), f.isRequired == Some(1))
  }

  function InSection(id: nat): DbField -> bool {
    (f: DbField) => f.sectionId == id
  }

  function InTemplate(id: nat): DbSection -> bool {
    (s: DbSection) => s.templateId == id
  }

  /** A section row with its field rows, in the order they come. */
  function AppSectionOf(s: DbSection, fields: seq<DbField>): AppSection {
    AppSection(NatToDecimal(s.id), s.name, OrElse(s.description, ""), OrElse(s.sectionType, "section"),
               s.isDisabled == Some(1), MapSeq(Filter(fields, InSection(s.id)), AppFieldOf), [],
               NumberText(if s.parentSectionId.Some? then Some(s.parentSectionId.value) else None))
  }

  function WithFields(fields: seq<DbField>): DbSection -> AppSection {
    (s: DbSection) => AppSectionOf(s, fields)
  }

  /** `transformTemplateData`. */
  function TransformTemplateData(t: DbTemplate, sections: seq<DbSection>, fields: seq<DbField>): AppTemplate {
    AppTemplate(NatToDecimal(t.id), t.name, OrElse(t.description, ""), OrElse(t.domainName, "General"), t.createdAt,
                MapSeq(Filter(sections, InTemplate(t.id)), WithFields(fields)))
  }

  /**
   * The template keeps exactly the section rows of its id, in input order:
   * the k-th section comes from the k-th such row, whose id it carries as
   * text that reads back as that id, and every row of the template is used.
   */
  lemma {:induction false} TransformKeepsTemplateSections(t: DbTemplate, sections: seq<DbSection>, fields: seq<DbField>)
    ensures var r, kept := TransformTemplateData(t, sections, fields), Filter(sections, InTemplate(t.id));
            IsSubsequence(kept, sections) &&
            |r.sections| == Count(sections, InTemplate(t.id)) &&
            (forall k :: 0 <= k < |kept| ==> kept[k].templateId == t.id) &&
            (forall s :: s in sections && s.templateId == t.id ==> s in kept) &&
            (forall k :: 0 <= k < |r.sections| ==>
               ParseDecimal(r.sections[k].id) == kept[k].id && r.sections[k].name == kept[k].name) &&
            ParseDecimal(r.id) == t.id
  {
    var kept := Filter(sections, InTemplate(t.id));
    FilterIsOrderedSelection(sections, InTemplate(t.id));
    forall k | 0 <= k < |kept| ensures ParseDecimal(NatToDecimal(kept[k].id)) == kept[k].id {
      DecimalRoundTrip(kept[k].id);
    }
    DecimalRoundTrip(t.id);
  }

  /** Each section's fields are exactly the field rows of its id, in order, one entry per row. */
  lemma {:induction false} SectionFieldsAreItsRows(s: DbSection, fields: seq<DbField>)
    ensures var r, own := AppSectionOf(s, fields), Filter(fields, InSection(s.id));
            IsSubsequence(own, fields) &&
            |r.fields| == Count(fields, InSection(s.id)) &&
            (forall k :: 0 <= k < |own| ==> own[k].sectionId == s.id && r.fields[k] == AppFieldOf(own[k])) &&
            (forall f :: f in fields && f.sectionId == s.id ==> f in own)
  {
    FilterIsOrderedSelection(fields, InSection(s.id));
  }

  /**
   * The field row rules: required exactly when `is_required` is 1; the type
   * `text` when no type name is given; the length empty exactly when there
   * is no maximum or it is 0, else its decimal text, with a sign when it is
   * negative.
   */
  lemma {:induction false} AppFieldRules(f: DbField)
    ensures AppFieldOf(f).name == f.fieldName
    ensures AppFieldOf(f).required <==> f.isRequired == Some(1)
    ensures AppFieldOf(f).dataType == (if Truthy(f.typeName) then f.typeName.value else "text")
    ensures AppFieldOf(f).length == "" <==> f.maxLength.None? || f.maxLength == Some(0)
    ensures f.maxLength.Some? && f.maxLength.value > 0 ==> ParseDecimal(AppFieldOf(f).length) == f.maxLength.value
    ensures f.maxLength.Some? && f.maxLength.value < 0 ==> AppFieldOf(f).length == "-" + NatToDecimal(-f.maxLength.value)
  {
    if f.maxLength.Some? && f.maxLength.value > 0 {
      DecimalRoundTrip(f.maxLength.value);
    }
  }

  /**
   * The section row rules: disabled exactly when `is_disabled` is 1; no
   * children; a parent id exactly when the parent column is truthy, and
   * then it reads back as that column.
   */
  lemma {:induction false} AppSectionRules(s: DbSection, fields: seq<DbField>)
    ensures AppSectionOf(s, fields).disabled <==> s.isDisabled == Some(1)
    ensures AppSectionOf(s, fields).children == []
    ensures AppSectionOf(s, fields).kind == OrElse(s.sectionType, "section")
    ensures AppSectionOf(s, fields).parentId.None? <==> s.parentSectionId.None? || s.parentSectionId == Some(0)
    ensures AppSectionOf(s, fields).parentId.Some? ==> ParseDecimal(AppSectionOf(s, fields).parentId.value) == s.parentSectionId.value
  {
    if s.parentSectionId.Some? {
      DecimalRoundTrip(s.parentSectionId.value);
    }
  }

  // ------------------------------------------------------------ the ext_ convention

  const ExtPrefix: string := "ext_"

  /** `templateId.startsWith('ext_')`. */
  predicate IsExternal(id: string) {
    StartsWith(id, ExtPrefix)
  }

  /** `templateId.replace('ext_', '')`: the first occurrence is removed, wherever it is. */
  function ExternalId(id: string): string {
    ReplaceFirst(id, ExtPrefix, "")
  }

  /** The `id` of a template from the external service: absent or null, a string, or an integer. */
  datatype ExternalKey = NoKey | StrKey(s: string) | NumKey(n: int)

  /** JavaScript truthiness of such an id: the empty string and 0 are falsy. */
  predicate KeyTruthy(k: ExternalKey) {
    match k
    case NoKey => false
    case StrKey(s) => s != ""
    case NumKey(n) => n != 0
  }

  /** An integer as `${n}` writes it. */
  function IntText(n: int): string {
    if n < 0 then "-" + NatToDecimal(-n) else NatToDecimal(n)
  }

  /** The id as `${...}` writes it. */
  function KeyText(k: ExternalKey): string
    requires !k.NoKey?
  {
    match k
    case StrKey(s) => s
    case NumKey(n) => IntText(n)
  }

  /** The id a listed external template gets: `ext_${template.id || index}`. */
  function ListedExternalId(id: ExternalKey, index: nat): string {
    ExtPrefix + (if KeyTruthy(id) then KeyText(id) else NatToDecimal(index))
  }

  /** An external id is the prefix followed by the external service's id, which the strip recovers. */
  lemma {:induction false} ExternalIdStrips(id: string)
    requires IsExternal(id)
    ensures ExternalId(id) == id[|ExtPrefix|..]
    ensures ExtPrefix + ExternalId(id) == id
  {
    ReplaceFirstOfPrefix(id, ExtPrefix);
  }

  /** Prefixing and stripping are inverse: for every id. */
  lemma {:induction false} ExternalIdRoundTrip(s: string)
    ensures IsExternal(ExtPrefix + s)
    ensures ExternalId(ExtPrefix + s) == s
  {
    assert (ExtPrefix + s)[..|ExtPrefix|] == ExtPrefix;
    ExternalIdStrips(ExtPrefix + s);
    assert (ExtPrefix + s)[|ExtPrefix|..] == s;
  }

  /**
   * A listed external template's id is external. It strips to the service's
   * string id, or to the decimal text of its numeric id. When the id is
   * falsy (absent, null, "" or 0), it strips to the list index.
   */
  lemma {:induction false} ListedExternalIdFacts(id: ExternalKey, index: nat)
    ensures IsExternal(ListedExternalId(id, index))
    ensures id.StrKey? && id.s != "" ==> ExternalId(ListedExternalId(id, index)) == id.s
    ensures id.NumKey? && id.n > 0 ==> ParseDecimal(ExternalId(ListedExternalId(id, index))) == id.n
    ensures id.NumKey? && id.n < 0 ==> ExternalId(ListedExternalId(id, index)) == "-" + NatToDecimal(-id.n)
    ensures !KeyTruthy(id) ==> ParseDecimal(ExternalId(ListedExternalId(id, index))) == index
    ensures ListedExternalId(NumKey(0), index) == ListedExternalId(NoKey, index)
  {
    var text := if KeyTruthy(id) then KeyText(id) else NatToDecimal(index);
    ExternalIdRoundTrip(text);
    assert ExternalId(ListedExternalId(id, index)) == text;
    DecimalRoundTrip(index);
    if id.NumKey? && id.n > 0 {
      DecimalRoundTrip(id.n);
    }
  }

  // ------------------------------------------------------------ the configuration routes

  /** A parsed JSON value. */
  datatype Json = JNull | JBool(b: bool) | JNum(n: int) | JStr(s: string) | JArr(items: seq<Json>) | JObj(members: map<string, Json>)

  /** JavaScript truthiness of a parsed value. */
  predicate JsonTruthy(v: Json) {
    match v
    case JNull => false
    case JBool(b) => b
    case JNum(n) => n != 0
    case JStr(s) => s != ""
    case _ => true
  }

  /** `Object.keys(v).length` for a value that is not null. */
  function KeyCount(v: Json): nat {
    match v
    case JStr(s) => |s|
    case JArr(items) => |items|
    case JObj(m) => |m|
    case _ => 0
  }

  /** `v.configuration` for a value that is not null: only an object has the key. */
  function Member(v: Json, key: string): Option<Json> {
    if v.JObj? && key in v.members then Some(v.members[key]) else None
  }

  /**
   * A value the database driver hands back already parsed. It is never a
   * string: the routes pass every string through `JSON.parse`, so a string
   * is `MetadataText`.
   */
  type DriverValue = v: Json | !v.JStr? witness JNull

  /**
   * The `metadata` column: null or absent (also the empty string); a
   * non-empty string, with what `JSON.parse` gives for it (None when the
   * parse throws); or a value the driver already parsed.
   */
  datatype Metadata = NoMetadata | MetadataText(parsed: Option<Json>) | MetadataValue(value: DriverValue)

  /** `if (template.metadata)`: a non-empty text, or a parsed value that is truthy. */
  predicate MetadataPresent(m: Metadata) {
    m.MetadataText? || (m.MetadataValue? && JsonTruthy(m.value))
  }

  /** The metadata as the routes read it: None when reading it throws (text that does not parse). */
  function ReadMetadata(m: Metadata): Option<Json>
    requires MetadataPresent(m)
  {
    if m.MetadataText? then m.parsed else Some(m.value)
  }

  /** The template row `GetTemplateById` returns (the columns the configuration routes use). */
  datatype TemplateRow = TemplateRow(templateId: nat, name: string, version: Option<string>, metadata: Metadata)

  datatype ConfigReply = ConfigNotFound | ConfigFound(templateId: nat, templateName: string, configuration: Json)

  /** The object generated when the metadata holds no configuration. */
  function DefaultConfiguration(t: TemplateRow, now: string): Json {
    JObj(map["templateName" := JStr(t.name), "sections" := JArr([]), "generatedAt" := JStr(now),
             "version" := JStr(OrElse(t.version, "1.0"))])
  }

  /**
   * The configuration read from the metadata: its truthy `configuration`
   * member, else the metadata itself; the empty object when there is no
   * metadata or reading it throws (unparseable text, or null).
   */
  function StoredConfiguration(m: Metadata): Json {
    if !MetadataPresent(m) then JObj(map[])
    else
      var md := ReadMetadata(m);
      if md.None? || md.value.JNull? then JObj(map[])
      else
        var c := Member(md.value, "configuration");
        if c.Some? && JsonTruthy(c.value) then c.value else md.value
  }

  /** GET `/configuration`: 404 without a row; the stored configuration, or the default when it has no keys. */
  function GetConfiguration(rows: seq<TemplateRow>, now: string): ConfigReply {
    if rows == [] then ConfigNotFound
    else
      var t := rows[0];
      var c := StoredConfiguration(t.metadata);
      ConfigFound(t.templateId, t.name, if KeyCount(c) == 0 then DefaultConfiguration(t, now) else c)
  }

  /** A parsed value that has a truthy `configuration` member. */
  predicate HasConfiguration(md: Json) {
    md.JObj? && "configuration" in md.members && JsonTruthy(md.members["configuration"])
  }

  /**
   * What GET returns, for metadata stored either as text or as a parsed
   * value. A truthy `configuration` member with keys is returned as it is.
   * Otherwise a non-null value with keys is returned as it is. The default
   * object, which has keys, is returned in every other case: no metadata,
   * a string the parse rejects, null, or a chosen value without keys.
   */
  lemma {:induction false} GetConfigurationFacts(rows: seq<TemplateRow>, now: string)
    ensures GetConfiguration(rows, now).ConfigNotFound? <==> rows == []
    ensures rows != [] ==> KeyCount(GetConfiguration(rows, now).configuration) > 0
    ensures rows != [] && MetadataPresent(rows[0].metadata) && ReadMetadata(rows[0].metadata).Some? ==>
              var md, c := ReadMetadata(rows[0].metadata).value, GetConfiguration(rows, now).configuration;
              (HasConfiguration(md) && KeyCount(md.members["configuration"]) > 0 ==> c == md.members["configuration"]) &&
              (HasConfiguration(md) && KeyCount(md.members["configuration"]) == 0 ==> c == DefaultConfiguration(rows[0], now)) &&
              (!md.JNull? && !HasConfiguration(md) && KeyCount(md) > 0 ==> c == md) &&
              (!HasConfiguration(md) && KeyCount(md) == 0 ==> c == DefaultConfiguration(rows[0], now))
    ensures rows != [] && (!MetadataPresent(rows[0].metadata) || rows[0].metadata == MetadataText(None)) ==>
              GetConfiguration(rows, now).configuration == DefaultConfiguration(rows[0], now)
  {
    if rows != [] {
      var t := rows[0];
      var d := DefaultConfiguration(t, now);
      assert "templateName" in d.members;
      assert KeyCount(d) > 0;
    }
  }

  /** The local metadata object of the PUT route, whose keys the handler assigns in place. */
  class MetadataObject {
    var members: map<string, Json>

    constructor (m: map<string, Json>)
      ensures members == m
    {
      members := m;
    }

    /** `metadata[key] = value`. */
    method Assign(key: string, value: Json)
      modifies this`members
      ensures members == old(members)[key := value]
    {
      members := members[key := value];
    }
  }

  datatype PutReply = BadRequest | PutNotFound | ServerError | Saved(metadata: Json)

  /**
   * The merge PUT `/configuration` stores: the configuration and its time
   * set on the metadata object; an array keeps its properties out of the
   * JSON text, so it is stored unchanged; on null or a primitive the
   * assignment throws (the module runs in strict mode).
   */
  function MergedMetadata(md: Json, configuration: Json, now: string): Option<Json> {
    match md
    case JObj(m) => Some(JObj(m["configuration" := configuration]["configurationUpdatedAt" := JStr(now)]))
    case JArr(_) => Some(md)
    case _ => None
  }

  /** The metadata the PUT route starts from: the stored value, or the empty object when absent or unparseable. */
  function StartingMetadata(m: Metadata): Json {
    if !MetadataPresent(m) then JObj(map[])
    else
      var md := ReadMetadata(m);
      if md.None? then JObj(map[]) else md.value
  }

  /** PUT `/configuration` as a function: 400, then 404, then the merge. */
  function PutConfiguration(configuration: Option<Json>, rows: seq<TemplateRow>, now: string): PutReply {
    if configuration.None? || !JsonTruthy(configuration.value) then BadRequest
    else if rows == [] then PutNotFound
    else
      var merged := MergedMetadata(StartingMetadata(rows[0].metadata), configuration.value, now);
      if merged.None? then ServerError else Saved(merged.value)
  }

  /** The PUT route's steps as the source takes them, assigning the two keys on the local object. */
  method PutConfigurationSteps(configuration: Option<Json>, rows: seq<TemplateRow>, now: string) returns (reply: PutReply)
    ensures reply == PutConfiguration(configuration, rows, now)
  {
    if configuration.None? || !JsonTruthy(configuration.value) {
      return BadRequest;
    }
    if rows == [] {
      return PutNotFound;
    }
    var md := StartingMetadata(rows[0].metadata);
    if !md.JObj? {
      return if md.JArr? then Saved(md) else ServerError;
    }
    var obj := new MetadataObject(md.members);
    obj.Assign("configuration", configuration.value);
    obj.Assign("configurationUpdatedAt", JStr(now));
    reply := Saved(JObj(obj.members));
  }

  /**
   * The PUT merge. A missing or falsy configuration is rejected before the
   * row is looked up. Without metadata, or with a string the parse rejects,
   * the handler starts from the empty object and stores exactly the two
   * keys. Object metadata keeps every other key and its value, and gains
   * exactly the two keys. An array is stored unchanged. Null or a primitive,
   * which includes a string that parses to a string, makes the assignment
   * throw, so the reply is 500.
   */
  lemma {:induction false} PutConfigurationFacts(configuration: Option<Json>, rows: seq<TemplateRow>, now: string)
    ensures PutConfiguration(configuration, rows, now).BadRequest? <==> configuration.None? || !JsonTruthy(configuration.value)
    ensures PutConfiguration(configuration, rows, now).PutNotFound? <==>
              configuration.Some? && JsonTruthy(configuration.value) && rows == []
    ensures configuration.Some? && JsonTruthy(configuration.value) && rows != [] &&
            (!MetadataPresent(rows[0].metadata) || rows[0].metadata == MetadataText(None)) ==>
              PutConfiguration(configuration, rows, now) ==
                Saved(JObj(map["configuration" := configuration.value, "configurationUpdatedAt" := JStr(now)]))
    ensures PutConfiguration(configuration, rows, now).Saved? && StartingMetadata(rows[0].metadata).JObj? ==>
              var old_ := StartingMetadata(rows[0].metadata).members;
              var new_ := PutConfiguration(configuration, rows, now).metadata;
              new_.JObj? &&
              new_.members.Keys == old_.Keys + {"configuration", "configurationUpdatedAt"} &&
              new_.members["configuration"] == configuration.value &&
              new_.members["configurationUpdatedAt"] == JStr(now) &&
              forall k :: k in old_ && k != "configuration" && k != "configurationUpdatedAt" ==> new_.members[k] == old_[k]
    ensures configuration.Some? && JsonTruthy(configuration.value) && rows != [] &&
            MetadataPresent(rows[0].metadata) && ReadMetadata(rows[0].metadata).Some? &&
            ReadMetadata(rows[0].metadata).value.JArr? ==>
              PutConfiguration(configuration, rows, now) == Saved(ReadMetadata(rows[0].metadata).value)
    ensures PutConfiguration(configuration, rows, now).ServerError? <==>
              configuration.Some? && JsonTruthy(configuration.value) && rows != [] &&
              MetadataPresent(rows[0].metadata) && ReadMetadata(rows[0].metadata).Some? &&
              var md := ReadMetadata(rows[0].metadata).value;
              md.JNull? || md.JBool? || md.JNum? || md.JStr?
  {
  }

  /** Storing a configuration and reading it back: a stored object configuration with keys is what GET then returns. */
  lemma {:induction false} PutThenGet(configuration: Json, t: TemplateRow, now: string, later: string)
    requires JsonTruthy(configuration) && KeyCount(configuration) > 0 && StartingMetadata(t.metadata).JObj?
    ensures var reply := PutConfiguration(Some(configuration), [t], now);
            reply.Saved? &&
            GetConfiguration([t.(metadata := MetadataValue(reply.metadata))], later).configuration == configuration
  {
  }
}
