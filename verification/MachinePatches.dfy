/** The patches of the machine controller do not disturb anybody else's edits. */
module MachinePatches {
  import opened Api
  import opened ClusterStore
  import opened Allocation
  import opened MachineController
  import opened MachineStates
  import opened MergePatch

  datatype Field =
    | Metadata
    | AnnotationMap
    | Annotation(key: AnnotationKey)
    | Spec
    | NetworkInterfaces
    | OtherField(text: string)

  type Doc = Json<Field>

  /** The fields of a machine the controller does not look at. */
  datatype Rest = Rest(metadata: map<Field, Doc>, spec: map<Field, Doc>, top: map<Field, Doc>)

  function AnnotationFields(annotations: Annotations): map<Field, Doc> {
    map f: Field | f in (set k | k in annotations :: Annotation(k)) :: Text(annotations[f.key])
  }

  function Texts(items: seq<string>): seq<Doc> {
    seq(|items|, i requires 0 <= i < |items| => Text(items[i]))
  }

  function SpecFields(rest: map<Field, Doc>, networkInterfaces: seq<string>): map<Field, Doc> {
    if networkInterfaces == [] then rest - {NetworkInterfaces}
    else rest[NetworkInterfaces := List(Texts(networkInterfaces))]
  }

  /** The serialised machine: empty annotations and empty interface lists are omitted. */
  function Encode(m: Machine, rest: Rest): Doc {
    var metadata := if m.annotations == map[] then rest.metadata - {AnnotationMap}
                    else rest.metadata[AnnotationMap := Object(AnnotationFields(m.annotations))];
    Object(rest.top[Metadata := Object(metadata)][Spec := Object(SpecFields(rest.spec, m.networkInterfaces))])
  }

  /** The annotations the controller writes. */
  const OURS: set<AnnotationKey> := {AllocatorPaused, CapiPaused, AllocationResult, AllocationReason}

  /** A patch that decides about the allocator's annotations and the network interfaces only. */
  ghost predicate OnlyOurs(p: Doc) {
    && p.Object? && (forall k :: k in p.fields ==> k == Metadata || k == Spec)
    && (Metadata in p.fields ==>
          var md := p.fields[Metadata];
          md.Object? && (forall k :: k in md.fields ==> k == AnnotationMap) &&
          (AnnotationMap in md.fields ==>
             md.fields[AnnotationMap].Object? &&
             forall k :: k in md.fields[AnnotationMap].fields ==> k.Annotation? && k.key in OURS))
    && (Spec in p.fields ==>
          p.fields[Spec].Object? && forall k :: k in p.fields[Spec].fields ==> k == NetworkInterfaces)
  }

  /** An edit, seen as a merge patch, that keeps away from these. */
  ghost predicate Elsewhere(q: Doc) {
    && q.Object?
    && (Metadata in q.fields ==>
          var md := q.fields[Metadata];
          md.Object? &&
          (AnnotationMap in md.fields ==>
             md.fields[AnnotationMap].Object? &&
             forall k :: k in OURS ==> Annotation(k) !in md.fields[AnnotationMap].fields))
    && (Spec in q.fields ==> q.fields[Spec].Object? && NetworkInterfaces !in q.fields[Spec].fields)
  }

  lemma OursAndElsewhereApart(p: Doc, q: Doc)
    requires OnlyOurs(p) && Elsewhere(q)
    ensures Apart(p, q)
  {
  }

  /** The machines a reconcile may want. */
  ghost predicate Wanted(m: Machine, m': Machine) {
    || m' == m
    || (exists eni :: m' == AllocatedMachine(m, eni))
    || (exists reason :: reason != "" && (m' == FallbackMachine(m, reason) || m' == FailedMachine(m, reason)))
  }

  lemma WantedTouchesOurs(m: Machine, m': Machine)
    requires Concerned(m) && Wanted(m, m')
    ensures m.annotations != map[] && m'.annotations != map[]
    ensures forall k :: k !in OURS ==>
      (k in m.annotations <==> k in m'.annotations) && (k in m.annotations ==> m.annotations[k] == m'.annotations[k])
  {
    assert AllocateFromPool in m.annotations;
    assert AllocateFromPool in m'.annotations;
  }

  lemma AnnotationPatchIsOurs(a: Annotations, b: Annotations, f: Field)
    requires forall k :: k !in OURS ==> (k in a <==> k in b) && (k in a ==> a[k] == b[k])
    requires f in Diff(Object(AnnotationFields(a)), Object(AnnotationFields(b))).fields
    ensures f.Annotation? && f.key in OURS
  {
  }

  lemma MetadataPatch(rest: map<Field, Doc>, a: Doc, b: Doc)
    ensures var patch := Diff(Object(rest[AnnotationMap := a]), Object(rest[AnnotationMap := b]));
            patch.Object? && forall k :: k in patch.fields ==> k == AnnotationMap && patch.fields[k] == Diff(a, b)
  {
  }

  lemma SpecPatch(rest: map<Field, Doc>, before: seq<string>, after: seq<string>)
    ensures var patch := Diff(Object(SpecFields(rest, before)), Object(SpecFields(rest, after)));
            patch.Object? && forall k :: k in patch.fields ==> k == NetworkInterfaces
  {
  }

  lemma PatchIsOurs(m: Machine, m': Machine, rest: Rest)
    requires Concerned(m) && Wanted(m, m')
    ensures OnlyOurs(Diff(Encode(m, rest), Encode(m', rest)))
  {
    WantedTouchesOurs(m, m');
    hide Diff;
    var x, y := Encode(m, rest), Encode(m', rest);
    var a, b := Object(AnnotationFields(m.annotations)), Object(AnnotationFields(m'.annotations));
    forall k ensures k in Diff(x, y).fields ==> k == Metadata || k == Spec { DiffField(x, y, k); }
    DiffField(x, y, Metadata);
    DiffField(x, y, Spec);
    MetadataPatch(rest.metadata, a, b);
    SpecPatch(rest.spec, m.networkInterfaces, m'.networkInterfaces);
    DiffField(a, b, Spec);
    forall f | f in Diff(a, b).fields ensures f.Annotation? && f.key in OURS {
      AnnotationPatchIsOurs(m.annotations, m'.annotations, f);
    }
  }

  ghost predicate RestNullFree(rest: Rest) {
    && (forall k :: k in rest.metadata ==> NullFree(rest.metadata[k]))
    && (forall k :: k in rest.spec ==> NullFree(rest.spec[k]))
    && (forall k :: k in rest.top ==> NullFree(rest.top[k]))
  }

  lemma EncodeNullFree(m: Machine, rest: Rest)
    requires RestNullFree(rest)
    ensures NullFree(Encode(m, rest))
  {
    AnnotationsNullFree(m.annotations);
    var metadata := if m.annotations == map[] then rest.metadata - {AnnotationMap}
                    else rest.metadata[AnnotationMap := Object(AnnotationFields(m.annotations))];
    hide AnnotationFields;
    hide Texts;
    assert NullFree(Object(metadata));
    assert NullFree(Object(SpecFields(rest.spec, m.networkInterfaces)));
  }

  lemma AnnotationsNullFree(annotations: Annotations)
    ensures NullFree(Object(AnnotationFields(annotations)))
  {
  }

  /**
   Non-interference: for every outcome of a reconcile, the patch sent commutes with any edit elsewhere, on any
   stored document; applied to a machine that was edited in the meantime it gives the intended machine with the
   edit still in place, and applied to the machine as read it gives exactly the intended machine.
   */
  lemma PatchSparesOthers(m: Machine, m': Machine, rest: Rest, edit: Doc, stored: Doc)
    requires Concerned(m) && Wanted(m, m') && RestNullFree(rest) && Elsewhere(edit)
    ensures var patch := Diff(Encode(m, rest), Encode(m', rest));
            && Merge(Encode(m, rest), patch) == Encode(m', rest)
            && Merge(Merge(stored, edit), patch) == Merge(Merge(stored, patch), edit)
            && Merge(Merge(Encode(m, rest), edit), patch) == Merge(Encode(m', rest), edit)
  {
    var x, y := Encode(m, rest), Encode(m', rest);
    var patch := Diff(x, y);
    PatchIsOurs(m, m', rest);
    OursAndElsewhereApart(patch, edit);
    EncodeNullFree(m', rest);
    hide Encode;
    PatchRoundTrip(x, y);
    ApartCommute(stored, patch, edit);
    ApartCommute(x, patch, edit);
  }

  // ----- The patch and the controller's working copy -----

  /** A field after a computed patch: untouched where base and wanted agree, as wanted where they do not. */
  lemma DiffMergedField<K(!new)>(stored: map<K, Json<K>>, base: map<K, Json<K>>, wanted: map<K, Json<K>>, k: K)
    requires forall j :: j in wanted ==> NullFree(wanted[j])
    ensures var merged := Merge(Object(stored), Diff(Object(base), Object(wanted)));
            && merged.Object?
            && if (k in base <==> k in wanted) && (k in base ==> base[k] == wanted[k]) then
                 (k in merged.fields <==> k in stored) && (k in stored ==> merged.fields[k] == stored[k])
               else
                 (k in merged.fields <==> k in wanted) &&
                 (k in wanted ==>
                    merged.fields[k] == Merge(At(stored, k), if k in base then Diff(base[k], wanted[k]) else wanted[k]))
  {
    var patch := Diff(Object(base), Object(wanted));
    DiffField(Object(base), Object(wanted), k);
    MergedField(Object(stored), patch, k);
    if k in base && k in wanted { DiffNotNull(base[k], wanted[k]); }
  }

  /** Merging no difference changes nothing. */
  lemma MergeNoDifference<K(!new)>(stored: map<K, Json<K>>, base: map<K, Json<K>>)
    ensures Merge(Object(stored), Diff(Object(base), Object(base))) == Object(stored)
  {
    assert Merge(Object(stored), Diff(Object(base), Object(base))).fields == stored;
  }

  lemma AnnotationsMerged(stored: Annotations, base: Annotations, wanted: Annotations)
    ensures Merge(Object(AnnotationFields(stored)),
                  Diff(Object(AnnotationFields(base)), Object(AnnotationFields(wanted)))) ==
            Object(AnnotationFields(MergedAnnotations(stored, base, wanted)))
  {
    AnnotationsNullFree(wanted);
    var s, b, w := AnnotationFields(stored), AnnotationFields(base), AnnotationFields(wanted);
    var merged := Merge(Object(s), Diff(Object(b), Object(w)));
    var expected := AnnotationFields(MergedAnnotations(stored, base, wanted));
    hide Merge;
    hide Diff;
    DiffMergedField(s, b, w, Spec);
    forall f: Field ensures f in merged.fields <==> f in expected
                    ensures f in merged.fields ==> merged.fields[f] == expected[f]
    {
      DiffMergedField(s, b, w, f);
      if f in merged.fields && f in b && f in w && b[f] != w[f] { TextMerged(At(s, f), b[f], w[f]); }
      if f in w && f !in b { TextMerged(At(s, f), w[f], w[f]); }
    }
    assert merged.fields == expected;
  }

  lemma TextMerged<K(!new)>(target: Json<K>, base: Json<K>, wanted: Json<K>)
    requires wanted.Text?
    ensures Merge(target, Diff(base, wanted)) == wanted && Merge(target, wanted) == wanted
  {
  }

  lemma SpecMerged(stored: map<Field, Doc>, read: map<Field, Doc>, before: seq<string>, wanted: seq<string>)
    requires forall k :: k in read ==> NullFree(read[k])
    requires wanted == [] || before == []
    requires wanted == [] ==> before == []
    ensures Merge(Object(stored), Diff(Object(SpecFields(read, before)), Object(SpecFields(read, wanted)))) ==
            Object(if wanted == before then stored else stored[NetworkInterfaces := List(Texts(wanted))])
  {
    hide Texts;
    var b, w := SpecFields(read, before), SpecFields(read, wanted);
    var merged := Merge(Object(stored), Diff(Object(b), Object(w)));
    var expected := if wanted == before then stored else stored[NetworkInterfaces := List(Texts(wanted))];
    forall f: Field ensures f in merged.fields <==> f in expected
                    ensures f in merged.fields ==> merged.fields[f] == expected[f]
    {
      DiffMergedField(stored, b, w, f);
    }
    assert merged.fields == expected;
  }

  lemma SpecStored(rest: map<Field, Doc>, before: seq<string>, after: seq<string>)
    requires after != []
    ensures SpecFields(rest, before)[NetworkInterfaces := List(Texts(after))] == SpecFields(rest, after)
  {
  }

  lemma MetadataMerged(stored: map<Field, Doc>, read: map<Field, Doc>, s: Annotations, b: Annotations, w: Annotations)
    requires forall k :: k in read ==> NullFree(read[k])
    ensures Merge(Object(stored[AnnotationMap := Object(AnnotationFields(s))]),
                  Diff(Object(read[AnnotationMap := Object(AnnotationFields(b))]),
                       Object(read[AnnotationMap := Object(AnnotationFields(w))]))) ==
            Object(stored[AnnotationMap := Object(AnnotationFields(MergedAnnotations(s, b, w)))])
  {
    AnnotationsNullFree(w);
    AnnotationsMerged(s, b, w);
    hide AnnotationFields;
    hide MergedAnnotations;
    var x, y := Object(AnnotationFields(b)), Object(AnnotationFields(w));
    var stored' := stored[AnnotationMap := Object(AnnotationFields(s))];
    var base, wanted := read[AnnotationMap := x], read[AnnotationMap := y];
    MergeNoDifference(AnnotationFields(s), AnnotationFields(b));
    hide Merge;
    hide Diff;
    var merged := Merge(Object(stored'), Diff(Object(base), Object(wanted)));
    var expected := stored[AnnotationMap := Object(AnnotationFields(MergedAnnotations(s, b, w)))];
    DiffMergedField(stored', base, wanted, AnnotationMap);
    forall f: Field ensures f in merged.fields <==> f in expected
                    ensures f in merged.fields ==> merged.fields[f] == expected[f]
    {
      DiffMergedField(stored', base, wanted, f);
    }
    assert merged.fields == expected;
  }

  /** Two documents that differ in metadata and spec only, each of which merges as given. */
  lemma TopMerged(top: map<Field, Doc>, read: map<Field, Doc>, m: Doc, mb: Doc, mw: Doc, m': Doc, s: Doc, sb: Doc,
                  sw: Doc, s': Doc)
    requires forall k :: k in read ==> NullFree(read[k])
    requires NullFree(mw) && NullFree(sw)
    requires Merge(m, Diff(mb, mw)) == m' && Merge(s, Diff(sb, sw)) == s'
    requires (mb == mw ==> m' == m) && (sb == sw ==> s' == s)
    ensures Merge(Object(top[Metadata := m][Spec := s]),
                  Diff(Object(read[Metadata := mb][Spec := sb]), Object(read[Metadata := mw][Spec := sw]))) ==
            Object(top[Metadata := m'][Spec := s'])
  {
    var base, wanted := read[Metadata := mb][Spec := sb], read[Metadata := mw][Spec := sw];
    var stored, expected := top[Metadata := m][Spec := s], top[Metadata := m'][Spec := s'];
    hide Merge;
    hide Diff;
    var merged := Merge(Object(stored), Diff(Object(base), Object(wanted)));
    DiffMergedField(stored, base, wanted, Metadata);
    forall f: Field ensures f in merged.fields <==> f in expected
                    ensures f in merged.fields ==> merged.fields[f] == expected[f]
    {
      DiffMergedField(stored, base, wanted, f);
    }
    assert merged.fields == expected;
  }

  function AnnotatedMetadata(rest: Rest, annotations: Annotations): Doc {
    Object(rest.metadata[AnnotationMap := Object(AnnotationFields(annotations))])
  }

  function SpecDoc(rest: Rest, networkInterfaces: seq<string>): Doc {
    Object(SpecFields(rest.spec, networkInterfaces))
  }

  lemma EncodeAnnotated(m: Machine, rest: Rest)
    requires m.annotations != map[]
    ensures Encode(m, rest) ==
            Object(rest.top[Metadata := AnnotatedMetadata(rest, m.annotations)]
                           [Spec := SpecDoc(rest, m.networkInterfaces)])
    ensures RestNullFree(rest) ==>
      NullFree(AnnotatedMetadata(rest, m.annotations)) && NullFree(SpecDoc(rest, m.networkInterfaces))
  {
    AnnotationsNullFree(m.annotations);
    hide AnnotationFields;
    hide Texts;
  }

  /** One part of a document: what its patch makes of it, and that no difference changes nothing. */
  ghost predicate PartMerged(stored: Doc, base: Doc, wanted: Doc, merged: Doc) {
    Merge(stored, Diff(base, wanted)) == merged && (base == wanted ==> merged == stored)
  }

  lemma MetadataPart(stored: Annotations, base: Annotations, wanted: Annotations, rest: Rest, read: Rest)
    requires RestNullFree(read)
    ensures PartMerged(AnnotatedMetadata(rest, stored), AnnotatedMetadata(read, base), AnnotatedMetadata(read, wanted),
                       AnnotatedMetadata(rest, MergedAnnotations(stored, base, wanted)))
  {
    MetadataMerged(rest.metadata, read.metadata, stored, base, wanted);
    MergeNoDifference(rest.metadata[AnnotationMap := Object(AnnotationFields(stored))],
                      read.metadata[AnnotationMap := Object(AnnotationFields(base))]);
  }

  lemma SpecPart(stored: seq<string>, base: seq<string>, wanted: seq<string>, rest: Rest, read: Rest)
    requires RestNullFree(read) && base == []
    ensures PartMerged(SpecDoc(rest, stored), SpecDoc(read, base), SpecDoc(read, wanted),
                       SpecDoc(rest, if wanted == base then stored else wanted))
  {
    SpecMerged(SpecFields(rest.spec, stored), read.spec, base, wanted);
    if wanted != [] { SpecStored(rest.spec, stored, wanted); }
    MergeNoDifference(SpecFields(rest.spec, stored), SpecFields(read.spec, base));
  }

  /**
   The controller's patch, as sent: applied to whatever machine is stored by then, with whatever other fields, it
   gives exactly `Merged`, which is what `MachineReconciler.Patch` stores. (Empty annotations are omitted from a
   document, so the case of a machine that has lost all of its annotations is set aside.)
   */
  lemma PatchIsMerged(stored: Machine, base: Machine, wanted: Machine, rest: Rest, read: Rest)
    requires Concerned(base) && Wanted(base, wanted) && RestNullFree(read)
    requires stored.annotations != map[] && Merged(stored, base, wanted).annotations != map[]
    ensures Merge(Encode(stored, rest), Diff(Encode(base, read), Encode(wanted, read))) ==
            Encode(Merged(stored, base, wanted), rest)
  {
    var merged := Merged(stored, base, wanted);
    WantedTouchesOurs(base, wanted);
    MetadataPart(stored.annotations, base.annotations, wanted.annotations, rest, read);
    SpecPart(stored.networkInterfaces, base.networkInterfaces, wanted.networkInterfaces, rest, read);
    EncodeAnnotated(stored, rest);
    EncodeAnnotated(merged, rest);
    EncodeAnnotated(base, read);
    EncodeAnnotated(wanted, read);
    hide Wanted;
    hide Merged;
    hide Encode;
    hide AnnotatedMetadata;
    hide SpecDoc;
    hide Merge;
    hide Diff;
    TopMerged(rest.top, read.top,
              AnnotatedMetadata(rest, stored.annotations), AnnotatedMetadata(read, base.annotations),
              AnnotatedMetadata(read, wanted.annotations), AnnotatedMetadata(rest, merged.annotations),
              SpecDoc(rest, stored.networkInterfaces), SpecDoc(read, base.networkInterfaces),
              SpecDoc(read, wanted.networkInterfaces), SpecDoc(rest, merged.networkInterfaces));
  }

  /** The same for a reconcile as a whole. */
  lemma ReconcileSparesOthers(ref: ObjectRef, m: Machine, claims: Claims, r: Readings, m': Machine, claims': Claims,
                              outcome: Outcome, rest: Rest, edit: Doc, stored: Doc)
    requires Concerned(m) && FreshList(r.listed, claims) && MachineStep(ref, m, claims, r, m', claims', outcome)
    requires RestNullFree(rest) && Elsewhere(edit)
    ensures var patch := Diff(Encode(m, rest), Encode(m', rest));
            && Merge(Encode(m, rest), patch) == Encode(m', rest)
            && Merge(Merge(stored, edit), patch) == Merge(Merge(stored, patch), edit)
            && Merge(Merge(Encode(m, rest), edit), patch) == Merge(Encode(m', rest), edit)
  {
    hide MachineStep;
    StepLands(ref, m, claims, r, m', claims', outcome);
    PatchSparesOthers(m, m', rest, edit, stored);
  }
}
