/**
 * The configuration serializer of the older builder (`generateJSON` in
 * gb-code.tsx `handleSave`). Each section becomes a clean section whose
 * fields are split by `repeated` into a `fields` and a `listFields`
 * bucket, an empty bucket's key being deleted; subsections are cleaned one
 * level deep, and `disabled` is copied only on top-level sections that
 * define it. The serializer is given as specification functions and as
 * the loops the source runs, each proved equal to its specification.
 */
module GbJson {

  import opened Common
  import opened GbTree

  /** A field as serialized: absent keys take their defaults and `repeated` is gone. */
  datatype CleanField = CleanField(
    id: string,
    name: string,
    description: string,
    dataType: string,
    length: string,
    required: bool,
    defaultValue: string,
    dropdownOptions: seq<string>)

  /** A subsection as serialized: no `subsections` and no `disabled` key. */
  datatype CleanSub = CleanSub(
    id: string, name: string, description: string, kind: string,
    fields: Option<seq<CleanField>>, listFields: Option<seq<CleanField>>)

  /** A top-level section as serialized; `None` is a key that is not emitted. */
  datatype CleanSection = CleanSection(
    id: string, name: string, description: string, kind: string,
    fields: Option<seq<CleanField>>, listFields: Option<seq<CleanField>>,
    subsections: Option<seq<CleanSub>>, disabled: Option<bool>)

  /** The object `generateJSON` returns. */
  datatype GbConfig = GbConfig(viewMode: string, showHPIBullets: bool, showHeaders: bool, sections: seq<CleanSection>)

  // ------------------------------------------------------------ specification

  /** `x || default` on the keys a field may lack. */
  function CleanFieldOf(f: GbField): CleanField {
    CleanField(f.id, f.name, f.description.GetOr(""), f.dataType, f.length.GetOr(""),
               f.required.GetOr(false), f.defaultValue.GetOr(""), f.dropdownOptions.GetOr([]))
  }

  /** `if (field.repeated)`. */
  function IsRepeated(f: GbField): bool {
    f.repeated == Some(true)
  }

  function IsSingle(f: GbField): bool {
    !IsRepeated(f)
  }

  /** The `fields` bucket: the fields that are not repeated, cleaned, in order. */
  function Regular(fs: seq<GbField>): seq<CleanField> {
    MapSeq(Filter(fs, IsSingle), CleanFieldOf)
  }

  /** The `listFields` bucket: the repeated fields, cleaned, in order. */
  function Listed(fs: seq<GbField>): seq<CleanField> {
    MapSeq(Filter(fs, IsRepeated), CleanFieldOf)
  }

  /** `if (bucket.length === 0) delete ...`. */
  function Bucket(b: seq<CleanField>): (r: Option<seq<CleanField>>)
    ensures r.None? <==> b == []
    ensures r.Some? ==> r.value == b
  {
    if |b| == 0 then None else Some(b)
  }

  function CleanSubOf(s: GbSection): CleanSub {
    var fs := s.fields.GetOr([]);
    CleanSub(s.id, s.name, s.description.GetOr(""), s.kind, Bucket(Regular(fs)), Bucket(Listed(fs)))
  }

  function CleanSectionOf(s: GbSection): CleanSection {
    var fs := s.fields.GetOr([]);
    CleanSection(s.id, s.name, s.description.GetOr(""), s.kind, Bucket(Regular(fs)), Bucket(Listed(fs)),
                 if s.Parent? then Some(MapSeq(s.subsections, CleanSubOf)) else None,
                 s.disabled)
  }

  function GbConfigOf(viewMode: string, showHPIBullets: bool, showHeaders: bool, l: seq<GbSection>): GbConfig {
    GbConfig(viewMode, showHPIBullets, showHeaders, MapSeq(l, CleanSectionOf))
  }

  // ------------------------------------------------------------ properties

  lemma {:induction false} MapSeqSubsequence<T, U>(a: seq<T>, b: seq<T>, f: T -> U)
    requires IsSubsequence(a, b)
    ensures IsSubsequence(MapSeq(a, f), MapSeq(b, f))
    decreases |b|
  {
    if a != [] {
      var fa, fb := MapSeq(a, f), MapSeq(b, f);
      assert fb[1..] == MapSeq(b[1..], f);
      assert fa[1..] == MapSeq(a[1..], f);
      if a[0] == b[0] && IsSubsequence(a[1..], b[1..]) {
        MapSeqSubsequence(a[1..], b[1..], f);
      } else {
        MapSeqSubsequence(a, b[1..], f);
      }
    }
  }

  /**
   * The two buckets split a section's cleaned fields: each keeps the
   * fields' relative order, the sizes add up to the number of fields,
   * `listFields` holds as many entries as there are repeated fields, and
   * together they hold every cleaned field as often as it occurs.
   */
  lemma {:induction false} BucketsPartition(fs: seq<GbField>)
    ensures IsSubsequence(Regular(fs), MapSeq(fs, CleanFieldOf))
    ensures IsSubsequence(Listed(fs), MapSeq(fs, CleanFieldOf))
    ensures |Regular(fs)| + |Listed(fs)| == |fs|
    ensures |Listed(fs)| == Count(fs, IsRepeated)
    ensures multiset(Regular(fs)) + multiset(Listed(fs)) == multiset(MapSeq(fs, CleanFieldOf))
  {
    FilterIsOrderedSelection(fs, IsSingle);
    FilterIsOrderedSelection(fs, IsRepeated);
    MapSeqSubsequence(Filter(fs, IsSingle), fs, CleanFieldOf);
    MapSeqSubsequence(Filter(fs, IsRepeated), fs, CleanFieldOf);
    FilterMapSplit(fs, IsSingle, IsRepeated, CleanFieldOf);
  }

  /**
   * The serialized section: both bucket keys are present exactly when
   * non-empty; `subsections` is present exactly when the section has the
   * key, with one clean subsection per subsection in order; `disabled` is
   * copied as it is defined.
   */
  lemma {:induction false} CleanSectionFacts(s: GbSection)
    ensures var c, fs := CleanSectionOf(s), s.fields.GetOr([]);
            (c.fields.None? <==> Regular(fs) == []) && (c.listFields.None? <==> Listed(fs) == []) &&
            (c.fields.Some? ==> c.fields.value == Regular(fs)) && (c.listFields.Some? ==> c.listFields.value == Listed(fs)) &&
            (c.subsections.Some? <==> s.Parent?) &&
            (s.Parent? ==>
               |c.subsections.value| == |s.subsections| &&
               forall k :: 0 <= k < |s.subsections| ==> c.subsections.value[k] == CleanSubOf(s.subsections[k])) &&
            c.disabled == s.disabled && c.id == s.id && c.name == s.name && c.kind == s.kind
  {
  }

  /**
   * Subsections are serialized one level deep: a clean subsection depends
   * only on the subsection's own keys, so whatever lies below it is
   * dropped, and it is the top-level serialization without `subsections`
   * and `disabled`.
   */
  lemma {:induction false} CleanSubIsShallow(s: GbSection)
    ensures CleanSubOf(s) == CleanSubOf(Head(s))
    ensures var c, t := CleanSubOf(s), CleanSectionOf(s);
            c.id == t.id && c.name == t.name && c.description == t.description && c.kind == t.kind &&
            c.fields == t.fields && c.listFields == t.listFields
  {
  }

  /** A field with every optional key absent is serialized with the defaults. */
  lemma {:induction false} CleanFieldDefaults(id: string, name: string, dataType: string)
    ensures CleanFieldOf(GbField(id, name, None, dataType, None, None, None, None, None))
            == CleanField(id, name, "", dataType, "", false, "", [])
  {
  }

  /** A section without `fields` serializes with neither bucket key. */
  lemma {:induction false} FieldlessSectionHasNoBuckets(s: GbSection)
    requires s.fields.None? || s.fields == Some([])
    ensures CleanSectionOf(s).fields.None? && CleanSectionOf(s).listFields.None?
  {
    var fs := s.fields.GetOr([]);
    assert fs == [];
    assert Filter(fs, IsSingle) == [] && Filter(fs, IsRepeated) == [];
  }

  // ------------------------------------------------------------ the loops

  lemma {:induction false} BucketsSnoc(fs: seq<GbField>, f: GbField)
    ensures Regular(fs + [f]) == Regular(fs) + (if IsRepeated(f) then [] else [CleanFieldOf(f)])
    ensures Listed(fs + [f]) == Listed(fs) + (if IsRepeated(f) then [CleanFieldOf(f)] else [])
  {
    FilterMapSnoc(fs, f, IsSingle, CleanFieldOf);
    FilterMapSnoc(fs, f, IsRepeated, CleanFieldOf);
  }

  /** `section.fields.forEach(...)`: push each cleaned field into its bucket. */
  method SplitBuckets(fs: seq<GbField>) returns (regular: seq<CleanField>, listed: seq<CleanField>)
    ensures regular == Regular(fs) && listed == Listed(fs)
  {
    regular, listed := [], [];
    var i := 0;
    while i < |fs|
      invariant 0 <= i <= |fs|
      invariant regular == Regular(fs[..i]) && listed == Listed(fs[..i])
    {
      var f := fs[i];
      var clean := CleanFieldOf(f);
      if IsRepeated(f) {
        listed := listed + [clean];
      } else {
        regular := regular + [clean];
      }
      BucketsSnoc(fs[..i], f);
      TakeSnoc(fs, i);
      i := i + 1;
    }
    assert fs[..i] == fs;
  }

  /** `cleanSub`, built as the source does: empty buckets first, filled, then deleted when empty. */
  method CleanSubsection(s: GbSection) returns (c: CleanSub)
    ensures c == CleanSubOf(s)
  {
    var regular, listed := [], [];
    if s.fields.Some? {
      regular, listed := SplitBuckets(s.fields.value);
    } else {
      assert Regular([]) == [] && Listed([]) == [];
    }
    var fieldsKey := if |regular| == 0 then None else Some(regular);
    var listKey := if |listed| == 0 then None else Some(listed);
    c := CleanSub(s.id, s.name, s.description.GetOr(""), s.kind, fieldsKey, listKey);
  }

  /** `cleanSection`, with `subsections.map(...)` written as the loop it performs. */
  method CleanTopSection(s: GbSection) returns (c: CleanSection)
    ensures c == CleanSectionOf(s)
  {
    var regular, listed := [], [];
    if s.fields.Some? {
      regular, listed := SplitBuckets(s.fields.value);
    } else {
      assert Regular([]) == [] && Listed([]) == [];
    }
    var fieldsKey := if |regular| == 0 then None else Some(regular);
    var listKey := if |listed| == 0 then None else Some(listed);
    var subsKey: Option<seq<CleanSub>> := None;
    if s.Parent? {
      var subs: seq<CleanSub> := [];
      var i := 0;
      while i < |s.subsections|
        invariant 0 <= i <= |s.subsections|
        invariant subs == MapSeq(s.subsections[..i], CleanSubOf)
      {
        var cs := CleanSubsection(s.subsections[i]);
        MapSeqConcat(s.subsections[..i], [s.subsections[i]], CleanSubOf);
        TakeSnoc(s.subsections, i);
        subs := subs + [cs];
        i := i + 1;
      }
      assert s.subsections[..i] == s.subsections;
      subsKey := Some(subs);
    }
    c := CleanSection(s.id, s.name, s.description.GetOr(""), s.kind, fieldsKey, listKey, subsKey, s.disabled);
  }

  /** `generateJSON`: every top-level section cleaned, in order, under the three view settings. */
  method GenerateJson(viewMode: string, showHPIBullets: bool, showHeaders: bool, l: seq<GbSection>) returns (j: GbConfig)
    ensures j == GbConfigOf(viewMode, showHPIBullets, showHeaders, l)
  {
    var out: seq<CleanSection> := [];
    var i := 0;
    while i < |l|
      invariant 0 <= i <= |l|
      invariant out == MapSeq(l[..i], CleanSectionOf)
    {
      var c := CleanTopSection(l[i]);
      MapSeqConcat(l[..i], [l[i]], CleanSectionOf);
      TakeSnoc(l, i);
      out := out + [c];
      i := i + 1;
    }
    assert l[..i] == l;
    j := GbConfig(viewMode, showHPIBullets, showHeaders, out);
  }

  /**
   * The serialized configuration holds one clean section per top-level
   * section, in order, and in each the bucket sizes add up to the
   * section's number of fields.
   */
  lemma {:induction false} GbConfigFacts(viewMode: string, showHPIBullets: bool, showHeaders: bool, l: seq<GbSection>)
    ensures var j := GbConfigOf(viewMode, showHPIBullets, showHeaders, l);
            |j.sections| == |l| &&
            forall k :: 0 <= k < |l| ==>
              j.sections[k].id == l[k].id &&
              |j.sections[k].fields.GetOr([])| + |j.sections[k].listFields.GetOr([])| == |l[k].fields.GetOr([])|
  {
    forall k | 0 <= k < |l|
      ensures |CleanSectionOf(l[k]).fields.GetOr([])| + |CleanSectionOf(l[k]).listFields.GetOr([])| == |l[k].fields.GetOr([])|
    {
      BucketsPartition(l[k].fields.GetOr([]));
    }
  }
}
