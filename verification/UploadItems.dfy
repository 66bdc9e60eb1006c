/** What the item helpers do to ids, object URLs and statuses. */
module UploadItems {
  import opened Upload

  ghost predicate DistinctIds(items: seq<Item>) {
    forall i, j :: 0 <= i < j < |items| ==> items[i].id != items[j].id
  }

  ghost predicate Has(items: seq<Item>, id: nat) {
    exists i :: 0 <= i < |items| && items[i].id == id
  }

  lemma {:induction false} FoundIsItem(items: seq<Item>, id: nat)
    ensures Find(items, id).Some? <==> Has(items, id)
    ensures Find(items, id).Some? ==> Find(items, id).value in items && Find(items, id).value.id == id
  {
    if items != [] {
      FoundIsItem(items[1..], id);
      if Has(items, id) {
        var i :| 0 <= i < |items| && items[i].id == id;
        assert i > 0 ==> items[1..][i - 1].id == id;
      }
      if Has(items[1..], id) {
        var i :| 0 <= i < |items[1..]| && items[1..][i].id == id;
        assert items[i + 1].id == id;
      }
      assert items[0].id == id ==> Has(items, id);
    }
  }

  lemma {:induction false} HeldAppends(a: seq<Item>, b: seq<Item>)
    ensures Held(a + b) == Held(a) + Held(b)
  {
    if a == [] {
      assert a + b == b;
    } else {
      assert (a + b)[1..] == a[1..] + b;
      HeldAppends(a[1..], b);
    }
  }

  /** No patch touches an object URL. */
  lemma {:induction false} UpdateKeepsHeld(items: seq<Item>, id: nat, patch: Patch)
    ensures Held(Update(items, id, patch)) == Held(items)
  {
    if items != [] {
      assert Update(items, id, patch)[1..] == Update(items[1..], id, patch);
      UpdateKeepsHeld(items[1..], id, patch);
    }
  }

  /** Created items get consecutive ids, and those with a preview consecutive object URLs. */
  lemma {:induction false} CreatedAreFresh(o: Options, files: seq<File>, id: nat, url: nat)
    ensures var created := CreateAll(o, files, id, url);
            && (forall i :: 0 <= i < |created| ==> created[i].id == id + i)
            && (forall i :: 0 <= i < |Held(created)| ==> Held(created)[i] == url + i)
            && (forall i :: 0 <= i < |created| ==> created[i].file == files[i] && created[i].error == Check(o, files[i]))
            && (forall i :: 0 <= i < |created| ==> created[i].status == (if created[i].error.Some? then Failed else Idle))
  {
    if files != [] {
      var it := Create(o, files[0], id, url);
      CreatedAreFresh(o, files[1..], id + 1, if it.preview.Some? then url + 1 else url);
    }
  }

  lemma {:induction false} WithoutHas(items: seq<Item>, id: nat)
    requires DistinctIds(items)
    ensures DistinctIds(Without(items, id))
    ensures forall it :: it in Without(items, id) <==> it in items && it.id != id
  {
    if items != [] {
      WithoutHas(items[1..], id);
      forall it | it in items[1..] ensures it.id != items[0].id {}
    }
  }

  lemma {:induction false} WithoutAbsent(items: seq<Item>, id: nat)
    requires !Has(items, id)
    ensures Without(items, id) == items
  {
    if items != [] {
      assert items[0].id != id;
      forall i | 0 <= i < |items[1..]| ensures items[1..][i].id != id {
        assert items[i + 1].id != id;
      }
      WithoutAbsent(items[1..], id);
    }
  }

  /** Taking an item out takes its object URL out of what is held, and no other. */
  lemma {:induction false} WithoutReleases(items: seq<Item>, id: nat)
    requires DistinctIds(items)
    ensures var target := Find(items, id);
            multiset(Held(Without(items, id))) + multiset(if target.Some? then PreviewOf(target.value) else [])
              == multiset(Held(items))
  {
    if items != [] {
      if items[0].id == id {
        forall i | 0 <= i < |items[1..]| ensures items[1..][i].id != id {
          assert items[i + 1].id != items[0].id;
        }
        WithoutAbsent(items[1..], id);
      } else {
        WithoutReleases(items[1..], id);
      }
    }
  }

  /** Dropping every old item revokes what they held, in order, and touches nothing but XHRs and descriptors. */
  lemma {:induction false} DropAllReleases(s: State, olds: seq<Item>)
    ensures var r := DropAll(s, olds);
            r == s.(revoked := s.revoked + Held(olds), descriptors := r.descriptors, xhrs := r.xhrs, xhrMap := r.xhrMap)
    ensures DropAll(s, olds).descriptors.Keys <= s.descriptors.Keys
    decreases |olds|
  {
    if olds != [] {
      var t := DropOne(s, olds[0]);
      assert t == s.(revoked := s.revoked + PreviewOf(olds[0]), descriptors := t.descriptors, xhrs := t.xhrs, xhrMap := t.xhrMap);
      DropAllReleases(t, olds[1..]);
      assert s.revoked + PreviewOf(olds[0]) + Held(olds[1..]) == s.revoked + Held(olds);
    }
  }
}
