/**
 * Auto-mapping of template placeholders to CSV columns
 * (`findMatchingFields`): per placeholder, the first column whose
 * normalised name equals the placeholder's, else the first column whose
 * normalised name contains the placeholder's or is contained in it, else no
 * entry.
 */
module FieldMapping {
  import opened Wrappers
  import opened Text
  import opened Seqs
  import opened Records
  import opened Normalize

  /** A CSV column with its comparison key. */
  datatype NormalizedField = NormalizedField(original: string, normalized: string)

  /** `csvFields.map(field => ({ original: field, normalized: normalizeString(field) }))`. */
  function NormalizeFields(csvFields: seq<string>): (r: seq<NormalizedField>)
    ensures |r| == |csvFields|
    ensures forall k :: 0 <= k < |r| ==> r[k] == NormalizedField(csvFields[k], NormalizeString(csvFields[k]))
  {
    seq(|csvFields|, k requires 0 <= k < |csvFields| => NormalizedField(csvFields[k], NormalizeString(csvFields[k])))
  }

  /** The containment test: either normalised name includes the other. */
  predicate Overlaps(normalized: string, normalizedPlaceholder: string) {
    Contains(normalized, normalizedPlaceholder) || Contains(normalizedPlaceholder, normalized)
  }

  /** The empty name is included in every name. */
  lemma EmptyOverlaps(s: string)
    ensures Overlaps(s, "")
  {
    assert OccursAt(s, "", 0);
  }

  /** Equal names overlap, so an exact match is also a containment match. */
  lemma EqualOverlaps(s: string)
    ensures Overlaps(s, s)
  {
    assert s[0..|s|] == s;
    assert OccursAt(s, s, 0);
  }

  /** `field => field.normalized === normalizedPlaceholder`. */
  function IsExact(np: string): NormalizedField -> bool {
    (f: NormalizedField) => f.normalized == np
  }

  /** `field => field.normalized.includes(np) || np.includes(field.normalized)`. */
  function IsOverlapping(np: string): NormalizedField -> bool {
    (f: NormalizedField) => Overlaps(f.normalized, np)
  }

  /** `normalizedCsvFields.find(field => field.normalized === normalizedPlaceholder)`, as an index. */
  function ExactMatch(fields: seq<NormalizedField>, np: string): Option<nat> {
    FindIndex(fields, IsExact(np))
  }

  /** The `find` for a field whose normalised name includes, or is included in, the placeholder's. */
  function ContainsMatch(fields: seq<NormalizedField>, np: string): Option<nat> {
    FindIndex(fields, IsOverlapping(np))
  }

  /** The column chosen for one placeholder: exact match first, then containment. */
  function MatchColumn(placeholder: string, fields: seq<NormalizedField>): (r: Option<string>)
    ensures r.Some? ==> exists k :: 0 <= k < |fields| && r.value == fields[k].original
  {
    var np := NormalizeString(placeholder);
    match ExactMatch(fields, np)
    case Some(k) => Some(fields[k].original)
    case None =>
      match ContainsMatch(fields, np)
      case Some(k) => Some(fields[k].original)
      case None => None
  }

  /** The first column that normalises exactly like the placeholder wins, even over an earlier containment match. */
  lemma ExactMatchWins(placeholder: string, fields: seq<NormalizedField>, k: nat)
    requires k < |fields| && fields[k].normalized == NormalizeString(placeholder)
    requires forall j :: 0 <= j < k ==> fields[j].normalized != NormalizeString(placeholder)
    ensures MatchColumn(placeholder, fields) == Some(fields[k].original)
  {
    var np := NormalizeString(placeholder);
    FindIndexAt(fields, IsExact(np), k);
  }

  /** Without an exact match, the first column that overlaps by containment wins. */
  lemma ContainmentFallback(placeholder: string, fields: seq<NormalizedField>, k: nat)
    requires forall j :: 0 <= j < |fields| ==> fields[j].normalized != NormalizeString(placeholder)
    requires k < |fields| && Overlaps(fields[k].normalized, NormalizeString(placeholder))
    requires forall j :: 0 <= j < k ==> !Overlaps(fields[j].normalized, NormalizeString(placeholder))
    ensures MatchColumn(placeholder, fields) == Some(fields[k].original)
  {
    var np := NormalizeString(placeholder);
    assert forall j :: 0 <= j < |fields| ==> !IsExact(np)(fields[j]);
    FindIndexAt(fields, IsOverlapping(np), k);
  }

  /** A placeholder gets no column exactly when no column overlaps it by containment. */
  lemma NoMatchNoEntry(placeholder: string, fields: seq<NormalizedField>)
    ensures MatchColumn(placeholder, fields).None? <==>
      forall j :: 0 <= j < |fields| ==> !Overlaps(fields[j].normalized, NormalizeString(placeholder))
  {
    var np := NormalizeString(placeholder);
    EqualOverlaps(np);
    if ExactMatch(fields, np).Some? {
      var k := ExactMatch(fields, np).value;
      assert Overlaps(fields[k].normalized, np);
    }
  }

  /**
   * The mapping after the `forEach` has visited `placeholders` in order,
   * where `choose` gives the column picked for a placeholder: each
   * placeholder with a column is written into the record.
   */
  function MappingsFor(placeholders: seq<string>, choose: string -> Option<string>): Record<string> {
    if |placeholders| == 0 then []
    else
      var prev := MappingsFor(placeholders[..|placeholders| - 1], choose);
      var placeholder := placeholders[|placeholders| - 1];
      match choose(placeholder)
      case Some(column) => Set(prev, placeholder, column)
      case None => prev
  }

  /** A placeholder's entry is the column chosen for it when it was visited, and absent otherwise. */
  lemma {:induction false} MappingsLookup(placeholders: seq<string>, choose: string -> Option<string>, p: string)
    ensures Lookup(MappingsFor(placeholders, choose), p) == if p in placeholders then choose(p) else None
  {
    if |placeholders| > 0 {
      var prefix := placeholders[..|placeholders| - 1];
      var last := placeholders[|placeholders| - 1];
      InitLast(placeholders);
      MappingsLookup(prefix, choose, p);
      if choose(last).Some? && p != last {
        LookupSet(MappingsFor(prefix, choose), last, choose(last).value, p);
      }
    }
  }

  /** Visiting one more placeholder sets its chosen column, if any. */
  lemma MappingsStep(placeholders: seq<string>, choose: string -> Option<string>, i: nat)
    requires i < |placeholders|
    ensures MappingsFor(placeholders[..i + 1], choose) ==
      match choose(placeholders[i])
      case Some(column) => Set(MappingsFor(placeholders[..i], choose), placeholders[i], column)
      case None => MappingsFor(placeholders[..i], choose)
  {
    assert placeholders[..i + 1][..i] == placeholders[..i];
  }

  /** The mapping never holds a placeholder twice. */
  lemma {:induction false} MappingsDistinct(placeholders: seq<string>, choose: string -> Option<string>)
    ensures DistinctKeys(MappingsFor(placeholders, choose))
  {
    if |placeholders| > 0 {
      MappingsDistinct(placeholders[..|placeholders| - 1], choose);
    }
  }

  /** Keys appear in the order their placeholders were first visited. */
  lemma {:induction false} MappingsOrder(placeholders: seq<string>, choose: string -> Option<string>)
    ensures forall n :: 0 <= n < |Keys(MappingsFor(placeholders, choose))| ==>
      Keys(MappingsFor(placeholders, choose))[n] in placeholders
    ensures forall a, b :: 0 <= a < b < |Keys(MappingsFor(placeholders, choose))| ==>
      IndexOf(placeholders, Keys(MappingsFor(placeholders, choose))[a]) <
      IndexOf(placeholders, Keys(MappingsFor(placeholders, choose))[b])
  {
    if |placeholders| > 0 {
      var prefix := placeholders[..|placeholders| - 1];
      var last := placeholders[|placeholders| - 1];
      var prev := MappingsFor(prefix, choose);
      var m := MappingsFor(placeholders, choose);
      MappingsOrder(prefix, choose);
      if choose(last).Some? && last !in Keys(prev) {
        MappingsLookup(prefix, choose, last);
        assert Keys(m) == Keys(prev) + [last];
      } else {
        assert Keys(m) == Keys(prev);
      }
      OrderedSnoc(prefix, last, Keys(prev), Keys(m));
      InitLast(placeholders);
    }
  }

  /** What the finished mapping holds, stated entry by entry. */
  lemma MappingsSpec(placeholders: seq<string>, choose: string -> Option<string>)
    ensures var mappings := MappingsFor(placeholders, choose);
      && DistinctKeys(mappings)
      && (forall p :: p in Keys(mappings) <==> p in placeholders && choose(p).Some?)
      && (forall n :: 0 <= n < |mappings| ==> choose(mappings[n].0) == Some(mappings[n].1))
      && (forall a, b :: 0 <= a < b < |mappings| ==>
            IndexOf(placeholders, mappings[a].0) < IndexOf(placeholders, mappings[b].0))
  {
    var mappings := MappingsFor(placeholders, choose);
    MappingsDistinct(placeholders, choose);
    MappingsOrder(placeholders, choose);
    assert forall n :: 0 <= n < |mappings| ==> Keys(mappings)[n] == mappings[n].0;
    forall p ensures p in Keys(mappings) <==> p in placeholders && choose(p).Some? {
      MappingsLookup(placeholders, choose, p);
    }
    forall n | 0 <= n < |mappings| ensures choose(mappings[n].0) == Some(mappings[n].1) {
      LookupEntry(mappings, n);
      MappingsLookup(placeholders, choose, mappings[n].0);
    }
  }

  /** The body of the `forEach` callback: the exact match if there is one, else the containment match. */
  method ChooseColumn(placeholder: string, normalizedCsvFields: seq<NormalizedField>) returns (chosen: Option<string>)
    ensures chosen == MatchColumn(placeholder, normalizedCsvFields)
  {
    var normalizedPlaceholder := NormalizeString(placeholder);
    var exactMatch := ExactMatch(normalizedCsvFields, normalizedPlaceholder);
    if exactMatch.Some? {
      return Some(normalizedCsvFields[exactMatch.value].original);
    }
    var containsMatch := ContainsMatch(normalizedCsvFields, normalizedPlaceholder);
    if containsMatch.Some? {
      return Some(normalizedCsvFields[containsMatch.value].original);
    }
    return None;
  }

  /**
   * `findMatchingFields(placeholders, csvFields)`: an entry for exactly the
   * placeholders some column matches, each mapped to the column MatchColumn
   * picks (so always one of `csvFields`), keys in order of first appearance.
   */
  method FindMatchingFields(placeholders: seq<string>, csvFields: seq<string>) returns (mappings: Record<string>)
    ensures DistinctKeys(mappings)
    ensures forall p :: p in Keys(mappings) <==> p in placeholders && MatchColumn(p, NormalizeFields(csvFields)).Some?
    ensures forall n :: 0 <= n < |mappings| ==> MatchColumn(mappings[n].0, NormalizeFields(csvFields)) == Some(mappings[n].1)
    ensures forall n :: 0 <= n < |mappings| ==> mappings[n].1 in csvFields
    ensures forall a, b :: 0 <= a < b < |mappings| ==>
      IndexOf(placeholders, mappings[a].0) < IndexOf(placeholders, mappings[b].0)
  {
    mappings := [];
    var normalizedCsvFields := NormalizeFields(csvFields);
    ghost var choose := (p: string) => MatchColumn(p, normalizedCsvFields);
    for i := 0 to |placeholders|
      invariant mappings == MappingsFor(placeholders[..i], choose)
    {
      var placeholder := placeholders[i];
      var chosen := ChooseColumn(placeholder, normalizedCsvFields);
      MappingsStep(placeholders, choose, i);
      if chosen.Some? {
        mappings := Set(mappings, placeholder, chosen.value);
      }
    }
    TakeAll(placeholders);
    MappingsSpec(placeholders, choose);
    MappedColumnsAreFields(mappings, csvFields);
  }

  /** Every column MatchColumn picks is one of the CSV fields. */
  lemma MappedColumnsAreFields(mappings: Record<string>, csvFields: seq<string>)
    requires forall n :: 0 <= n < |mappings| ==> MatchColumn(mappings[n].0, NormalizeFields(csvFields)) == Some(mappings[n].1)
    ensures forall n :: 0 <= n < |mappings| ==> mappings[n].1 in csvFields
  {
    forall n | 0 <= n < |mappings| ensures mappings[n].1 in csvFields {
      ChosenIsField(mappings[n].0, csvFields);
    }
  }

  /** A chosen column is one of the CSV's own column names. */
  lemma ChosenIsField(placeholder: string, csvFields: seq<string>)
    ensures MatchColumn(placeholder, NormalizeFields(csvFields)).Some? ==>
      MatchColumn(placeholder, NormalizeFields(csvFields)).value in csvFields
  {
    var fields := NormalizeFields(csvFields);
    var r := MatchColumn(placeholder, fields);
    if r.Some? {
      OriginalIsField(fields, csvFields, r.value);
    }
  }

  /** The original name of a normalised column is a column name of the CSV. */
  lemma OriginalIsField(fields: seq<NormalizedField>, csvFields: seq<string>, name: string)
    requires |fields| == |csvFields| && forall k :: 0 <= k < |fields| ==> fields[k].original == csvFields[k]
    requires exists k :: 0 <= k < |fields| && name == fields[k].original
    ensures name in csvFields
  {
    var k :| 0 <= k < |fields| && name == fields[k].original;
    assert csvFields[k] == name;
  }

  /**
   * A placeholder that normalises to the empty string (`{{ - }}`, say) is
   * mapped whenever there is a column at all, because every string
   * includes `""`.
   */
  lemma EmptyKeyAlwaysMapped(placeholder: string, csvFields: seq<string>)
    requires NormalizeString(placeholder) == "" && |csvFields| > 0
    ensures MatchColumn(placeholder, NormalizeFields(csvFields)).Some?
  {
    var fields := NormalizeFields(csvFields);
    EmptyOverlaps(fields[0].normalized);
    NoMatchNoEntry(placeholder, fields);
  }

  /** With no columns nothing is mapped. */
  lemma NoColumnsNoMatch(placeholder: string)
    ensures MatchColumn(placeholder, NormalizeFields([])) == None
  {
    NoMatchNoEntry(placeholder, NormalizeFields([]));
  }
}
