/** The canonical form of a semantic snapshot and its revision hash. */
module Snapshots {
  import opened Prelude
  import opened Semantic
  import opened Order

  function ModelKey(m: Model): seq<string> { [m.semanticName, m.source.schema, m.source.relation] }

  function FieldKey(f: Field): seq<string> { [f.semanticName] }

  function MetricKey(m: Metric): seq<string> { [m.semanticName] }

  function RelationshipKey(r: Relationship): seq<string> { [r.semanticName, r.targetModel] }

  function WritableFieldKey(f: WritableField): seq<string> { [f.field] }

  function NormalizedWritable(w: WritableModel): WritableModel {
    w.(fields := Sort(w.fields, WritableFieldKey),
       upsert := match w.upsert
                 case None => None
                 case Some(u) => Some(UpsertPolicy(Sort(u.conflictFields, NameKey))))
  }

  function NormalizedModel(m: Model): (r: Model)
    ensures r.semanticName == m.semanticName && r.source == m.source
  {
    m.(fields := Sort(m.fields, FieldKey),
       metrics := Sort(m.metrics, MetricKey),
       writable := if m.writable.Some? then Some(NormalizedWritable(m.writable.value)) else None,
       relationships := Sort(m.relationships, RelationshipKey))
  }

  function NormalizedModels(ms: seq<Model>): (r: seq<Model>)
    ensures |r| == |ms| && forall i :: 0 <= i < |ms| ==> r[i] == NormalizedModel(ms[i])
  {
    seq(|ms|, i requires 0 <= i < |ms| => NormalizedModel(ms[i]))
  }

  function Normalized(s: Snapshot): Snapshot {
    s.(models := NormalizedModels(Sort(s.models, ModelKey)))
  }

  /** Sorts one model's collections, one after the other. */
  method NormalizeCollections(m: Model) returns (model: Model)
    ensures model == NormalizedModel(m)
  {
    model := m.(fields := Sort(m.fields, FieldKey));
    model := model.(metrics := Sort(m.metrics, MetricKey));
    if model.writable.Some? {
      model := model.(writable := Some(NormalizedWritable(m.writable.value)));
    }
    model := model.(relationships := Sort(m.relationships, RelationshipKey));
  }

  /** `normalized`: sort the models, then every model in place. */
  method Normalize(s: Snapshot) returns (canonical: Snapshot)
    ensures canonical == Normalized(s)
  {
    var sorted := Sort(s.models, ModelKey);
    var models := sorted;
    var i := 0;
    while i < |models|
      invariant 0 <= i <= |models| == |sorted|
      invariant models == NormalizedModels(sorted[..i]) + sorted[i..]
    {
      var model := NormalizeCollections(models[i]);
      NormalizedModelsStep(sorted, i);
      models := models[i := model];
      i := i + 1;
    }
    canonical := s.(models := models);
    assert sorted[..i] == sorted && sorted[i..] == [];
  }

  lemma NormalizedModelsStep(ms: seq<Model>, i: nat)
    requires i < |ms|
    ensures NormalizedModels(ms[..i + 1]) == NormalizedModels(ms[..i]) + [NormalizedModel(ms[i])]
    ensures (NormalizedModels(ms[..i]) + ms[i..])[i] == ms[i]
    ensures (NormalizedModels(ms[..i]) + ms[i..])[i := NormalizedModel(ms[i])] == NormalizedModels(ms[..i + 1]) + ms[i + 1..]
  {
    hide NormalizedModel;
  }

  /** "sha256:" and 64 lower-case hexadecimal digits. */
  predicate IsSha256(value: string) {
    |value| == 71 && value[..7] == "sha256:"
    && forall i :: 7 <= i < 71 ==> '0' <= value[i] <= '9' || 'a' <= value[i] <= 'f'
  }

  /** The prefix and 64 lower-case hexadecimal digits. */
  ghost predicate HashText(value: string) {
    |value| == 71 && value[..7] == "sha256:" && forall i :: 7 <= i < 71 ==> value[i] in "0123456789abcdef"
  }

  lemma HexDigit(c: char)
    ensures c in "0123456789abcdef" <==> '0' <= c <= '9' || 'a' <= c <= 'f'
  {
    var digits := "0123456789abcdef";
    if '0' <= c <= '9' {
      assert digits[c as int - '0' as int] == c;
    } else if 'a' <= c <= 'f' {
      assert digits[c as int - 'a' as int + 10] == c;
    }
  }

  lemma HashTextExactly(value: string)
    ensures IsSha256(value) <==> HashText(value)
  {
    if |value| == 71 {
      forall i | 7 <= i < 71
        ensures value[i] in "0123456789abcdef" <==> '0' <= value[i] <= '9' || 'a' <= value[i] <= 'f'
      {
        HexDigit(value[i]);
      }
    }
  }

  /** `hash` stands for SHA-256 over the serialized snapshot. */
  predicate RevisionHashHolds(s: Snapshot, hash: Snapshot -> string) {
    IsSha256(s.revisionHash) && hash(Normalized(s).(revisionHash := "")) == s.revisionHash
  }
}
