/**
 * The workout collection as it is kept in storage: an ordered sequence of
 * records under one key, which may be absent. Deleting filters the stored
 * sequence by id.
 */
module Store {
  import opened Wrappers
  import opened Validation
  import opened Workouts

  /** The `workouts` storage key: `None` when nothing has been saved or it was removed. */
  type Storage = Option<seq<Workout>>

  /** How many records carry `id`. */
  function CountId(ws: seq<Workout>, id: string): (n: nat)
    ensures n <= |ws|
    ensures n == 0 <==> forall k :: 0 <= k < |ws| ==> ws[k].id != id
    decreases |ws|
  {
    if ws == [] then 0
    else (if ws[0].id == id then 1 else 0) + CountId(ws[1..], id)
  }

  /**
   * `ws.filter(workout => workout.id !== id)`: every record with that id is
   * dropped, every other record is kept, and the length drops by the number
   * of records that matched.
   */
  function RemoveId(ws: seq<Workout>, id: string): (r: seq<Workout>)
    ensures |r| == |ws| - CountId(ws, id)
    ensures forall w :: w in r <==> w in ws && w.id != id
    decreases |ws|
  {
    if ws == [] then []
    else (if ws[0].id != id then [ws[0]] else []) + RemoveId(ws[1..], id)
  }

  /** Filtering a concatenation filters each part in place: the kept records keep their relative order. */
  lemma {:induction false} RemoveIdAppend(a: seq<Workout>, b: seq<Workout>, id: string)
    ensures RemoveId(a + b, id) == RemoveId(a, id) + RemoveId(b, id)
    decreases |a|
  {
    if a != [] {
      assert (a + b)[1..] == a[1..] + b;
      RemoveIdAppend(a[1..], b, id);
    } else {
      assert a + b == b;
    }
  }

  /** Deleting an id that no record carries changes nothing. */
  lemma {:induction false} RemoveAbsentId(ws: seq<Workout>, id: string)
    requires forall k :: 0 <= k < |ws| ==> ws[k].id != id
    ensures RemoveId(ws, id) == ws
    decreases |ws|
  {
    if ws != [] {
      RemoveAbsentId(ws[1..], id);
    }
  }

  /** Deleting the same id twice is the same as deleting it once. */
  lemma RemoveIdIdempotent(ws: seq<Workout>, id: string)
    ensures RemoveId(RemoveId(ws, id), id) == RemoveId(ws, id)
  {
    var r := RemoveId(ws, id);
    assert forall k :: 0 <= k < |r| ==> r[k] in r;
    RemoveAbsentId(r, id);
  }

  /** Records whose ids are pairwise distinct. */
  predicate DistinctIds(ws: seq<Workout>) {
    forall i, j :: 0 <= i < j < |ws| ==> ws[i].id != ws[j].id
  }

  /** A record followed by records of other ids, all distinct among themselves. */
  lemma DistinctCons(w: Workout, ws: seq<Workout>)
    ensures DistinctIds([w] + ws) <==> DistinctIds(ws) && forall v :: v in ws ==> v.id != w.id
  {
    var c := [w] + ws;
    assert forall k :: 0 <= k < |ws| ==> c[k + 1] == ws[k];
    if DistinctIds(ws) && forall v :: v in ws ==> v.id != w.id {
      forall i, j | 0 <= i < j < |c|
        ensures c[i].id != c[j].id
      {
        assert c[j] == ws[j - 1];
        if i > 0 {
          assert c[i] == ws[i - 1];
        }
      }
    }
    if DistinctIds(c) {
      forall v | v in ws
        ensures v.id != w.id
      {
        var k :| 0 <= k < |ws| && ws[k] == v;
        assert c[0].id != c[k + 1].id;
      }
      forall i, j | 0 <= i < j < |ws|
        ensures ws[i].id != ws[j].id
      {
        assert c[i + 1].id != c[j + 1].id;
      }
    }
  }

  /** Appending a record whose id no earlier record carries keeps the ids distinct. */
  lemma DistinctSnoc(ws: seq<Workout>, w: Workout)
    requires DistinctIds(ws) && forall v :: v in ws ==> v.id != w.id
    ensures DistinctIds(ws + [w])
  {
    var c := ws + [w];
    forall i, j | 0 <= i < j < |c|
      ensures c[i].id != c[j].id
    {
      assert c[i] == ws[i] && ws[i] in ws;
      if j < |ws| {
        assert c[j] == ws[j];
      }
    }
  }

  /** With distinct ids, deleting an id that is present removes exactly one record and keeps ids distinct. */
  lemma {:induction false} RemoveIdDistinct(ws: seq<Workout>, id: string)
    requires DistinctIds(ws)
    ensures CountId(ws, id) <= 1
    ensures (exists k :: 0 <= k < |ws| && ws[k].id == id) ==> |RemoveId(ws, id)| == |ws| - 1
    ensures DistinctIds(RemoveId(ws, id))
    decreases |ws|
  {
    if ws != [] {
      var tail := ws[1..];
      assert ws == [ws[0]] + tail;
      DistinctCons(ws[0], tail);
      RemoveIdDistinct(tail, id);
      if ws[0].id == id {
        assert forall k :: 0 <= k < |tail| ==> tail[k].id != id by {
          assert forall k :: 0 <= k < |tail| ==> tail[k] in tail;
        }
      } else {
        DistinctCons(ws[0], RemoveId(tail, id));
      }
    }
  }

  // ---------------------------------------------------------------------------
  // The saved form
  // ---------------------------------------------------------------------------

  /**
   * A record as `JSON.stringify` writes it and `JSON.parse` reads it back.
   * Every modelled field is a string, a finite number or an object of those
   * and survives, except a ride's elevation gain: NaN and the infinities come
   * back as `null`. The `date` field, a `Date` that comes back as a string,
   * is not modelled in its serialised form.
   */
  function SavedRecord(w: Workout): (r: Workout)
    ensures r.id == w.id && r.Kind() == w.Kind()
    ensures r.Cycling? ==> JsonSafe(r.elevationGain) && r == w.(elevationGain := r.elevationGain)
    ensures r == w <==> (w.Cycling? ==> JsonSafe(w.elevationGain))
    ensures r.Cycling? && !JsonSafe(w.elevationGain) ==> r.elevationGain == JsonNull
  {
    if w.Cycling? then w.(elevationGain := ThroughJson(w.elevationGain)) else w
  }

  /** The round trip through JSON leaves every field that `WellFormed` reads as it was. */
  lemma SavedRecordWellFormed(w: Workout)
    ensures SavedRecord(w).WellFormed() <==> w.WellFormed()
  {
  }

  /** Records every field of which JSON can hold as it is. */
  predicate Persistable(ws: seq<Workout>) {
    forall k :: 0 <= k < |ws| ==> ws[k].Cycling? ==> JsonSafe(ws[k].elevationGain)
  }

  /** Storage as only a save can leave it: absent, or holding records in their saved form. */
  predicate Persisted(storage: Storage) {
    storage.Some? ==> Persistable(storage.value)
  }

  /**
   * The collection as a save and a reload give it back. It keeps the order,
   * the ids and the record kinds, it is always persistable, and it is the
   * collection itself exactly when that was persistable already.
   */
  function Saved(ws: seq<Workout>): (r: seq<Workout>)
    ensures |r| == |ws|
    ensures forall k :: 0 <= k < |ws| ==> r[k] == SavedRecord(ws[k])
    ensures Persistable(r)
    ensures r == ws <==> Persistable(ws)
  {
    seq(|ws|, k requires 0 <= k < |ws| => SavedRecord(ws[k]))
  }

  /** Saving what a reload gave back changes nothing. */
  lemma SavedIdempotent(ws: seq<Workout>)
    ensures Saved(Saved(ws)) == Saved(ws)
  {
  }

  /** Saving a concatenation saves each part. */
  lemma SavedAppend(a: seq<Workout>, b: seq<Workout>)
    ensures Saved(a + b) == Saved(a) + Saved(b)
  {
    assert forall k :: 0 <= k < |a + b| ==> Saved(a + b)[k] == (Saved(a) + Saved(b))[k];
  }

  /** Filtering by id and the round trip through JSON commute: neither changes an id. */
  lemma {:induction false} RemoveIdSaved(ws: seq<Workout>, id: string)
    ensures RemoveId(Saved(ws), id) == Saved(RemoveId(ws, id))
    decreases |ws|
  {
    if ws != [] {
      var s, head, tail := Saved(ws), [ws[0]], ws[1..];
      assert ws == head + tail;
      SavedAppend(head, tail);
      assert s[1..] == Saved(tail);
      RemoveIdSaved(tail, id);
      var kept := if ws[0].id != id then head else [];
      assert RemoveId(ws, id) == kept + RemoveId(tail, id);
      SavedAppend(kept, RemoveId(tail, id));
    }
  }

  /** Restoring the in-memory collection from storage (`_getWorkouts`): stored records as they were saved, or none. */
  function Load(storage: Storage): (ws: seq<Workout>)
    ensures storage.None? ==> ws == []
    ensures storage.Some? ==> ws == storage.value
  {
    storage.GetOr([])
  }
}
