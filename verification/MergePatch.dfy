/** JSON documents, merge patches (section 2 of RFC 7396) and the patches the controllers compute. */
module MergePatch {

  /** JSON values over field names of type K. */
  datatype Json<K> = Null | Text(text: string) | List(items: seq<Json<K>>) | Object(fields: map<K, Json<K>>)

  /** Applying a merge patch: null removes, an object is merged field by field, anything else replaces. */
  function Merge<K>(target: Json<K>, patch: Json<K>): Json<K>
    decreases patch
  {
    if !patch.Object? then patch
    else
      var base := if target.Object? then target.fields else map[];
      Object(map k | k in base.Keys + patch.fields.Keys && (k in patch.fields ==> !patch.fields[k].Null?) ::
               if k in patch.fields then Merge(if k in base then base[k] else Null, patch.fields[k]) else base[k])
  }

  /** The patch from one document to another: changed and new fields, and null for those that went away. */
  function Diff<K>(base: Json<K>, wanted: Json<K>): Json<K>
    decreases wanted
  {
    if !base.Object? || !wanted.Object? then wanted
    else
      Object(map k | k in base.fields.Keys + wanted.fields.Keys &&
                     (k in base.fields && k in wanted.fields ==> base.fields[k] != wanted.fields[k]) ::
               if k !in wanted.fields then Null
               else if k !in base.fields then wanted.fields[k]
               else Diff(base.fields[k], wanted.fields[k]))
  }

  // ----- Round trip -----

  /** No null anywhere but inside lists, as in every serialised API object. */
  ghost predicate NullFree<K(!new)>(doc: Json<K>) {
    !doc.Null? && (doc.Object? ==> forall k :: k in doc.fields ==> NullFree(doc.fields[k]))
  }

  lemma {:induction false} MergeIntoNothing<K(!new)>(target: Json<K>, doc: Json<K>)
    requires NullFree(doc) && !target.Object?
    ensures Merge(target, doc) == doc
    decreases doc
  {
    if doc.Object? {
      forall k | k in doc.fields ensures Merge(Null, doc.fields[k]) == doc.fields[k] {
        MergeIntoNothing(Null, doc.fields[k]);
      }
      assert Merge(target, doc).fields == doc.fields;
    }
  }

  /** Applied to the document it was computed from, the patch yields the intended one. */
  lemma {:induction false} PatchRoundTrip<K(!new)>(base: Json<K>, wanted: Json<K>)
    requires NullFree(wanted)
    ensures Merge(base, Diff(base, wanted)) == wanted
    decreases wanted
  {
    if !base.Object? {
      MergeIntoNothing(base, wanted);
    } else if wanted.Object? {
      var patch := Diff(base, wanted);
      var merged := Merge(base, patch);
      forall k | k in wanted.fields ensures k in merged.fields && merged.fields[k] == wanted.fields[k] {
        if k !in base.fields {
          MergeIntoNothing(Null, wanted.fields[k]);
        } else {
          PatchRoundTrip(base.fields[k], wanted.fields[k]);
          DiffNotNull(base.fields[k], wanted.fields[k]);
        }
      }
      assert merged.fields == wanted.fields;
    }
  }

  lemma DiffNotNull<K(!new)>(base: Json<K>, wanted: Json<K>)
    requires NullFree(wanted)
    ensures !Diff(base, wanted).Null?
  {
  }

  /** The fields of a patch between two objects. */
  lemma DiffField<K(!new)>(base: Json<K>, wanted: Json<K>, k: K)
    requires base.Object? && wanted.Object?
    ensures var patch := Diff(base, wanted);
            && patch.Object?
            && (k in patch.fields <==>
                  (k in base.fields || k in wanted.fields) &&
                  !(k in base.fields && k in wanted.fields && base.fields[k] == wanted.fields[k]))
            && (k in patch.fields && k in base.fields && k in wanted.fields ==>
                  patch.fields[k] == Diff(base.fields[k], wanted.fields[k]))
  {
  }

  // ----- Non-interference -----

  /** Two patches that never decide about the same place: where they meet, both only descend. */
  ghost predicate Apart<K(!new)>(p: Json<K>, q: Json<K>)
    decreases p
  {
    && p.Object? && q.Object?
    && forall k :: k in p.fields && k in q.fields ==> Apart(p.fields[k], q.fields[k])
  }

  function Base<K>(doc: Json<K>): map<K, Json<K>> {
    if doc.Object? then doc.fields else map[]
  }

  function At<K>(fields: map<K, Json<K>>, k: K): Json<K> {
    if k in fields then fields[k] else Null
  }

  /** A field after merging: what the patch says about it, or what was there. */
  lemma MergedField<K(!new)>(target: Json<K>, patch: Json<K>, k: K)
    requires patch.Object?
    ensures var merged := Merge(target, patch);
            && merged.Object?
            && (k in merged.fields <==> if k in patch.fields then !patch.fields[k].Null? else k in Base(target))
            && (k in merged.fields ==>
                  merged.fields[k] == (if k in patch.fields then Merge(At(Base(target), k), patch.fields[k])
                                       else Base(target)[k]))
  {
  }

  /** Patches that stay apart commute on every document. */
  lemma {:induction false} ApartCommute<K(!new)>(doc: Json<K>, p: Json<K>, q: Json<K>)
    requires Apart(p, q)
    ensures Merge(Merge(doc, p), q) == Merge(Merge(doc, q), p)
    decreases p
  {
    var pq, qp := Merge(Merge(doc, p), q), Merge(Merge(doc, q), p);
    forall k ensures k in pq.fields <==> k in qp.fields
             ensures k in pq.fields ==> pq.fields[k] == qp.fields[k]
    {
      MergedField(doc, p, k);
      MergedField(doc, q, k);
      MergedField(Merge(doc, p), q, k);
      MergedField(Merge(doc, q), p, k);
      if k in p.fields && k in q.fields {
        ApartCommute(At(Base(doc), k), p.fields[k], q.fields[k]);
      }
    }
    assert pq.fields == qp.fields;
  }
}
