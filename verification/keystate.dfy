/** The key-state store: a map from key code to "is down", written by the
    reader one record at a time. */
module KeyState {
  import opened Outcomes
  import opened Events

  type KeyMap = map<KeyCode, bool>

  /** A lookup in the store. A key with no entry reads as `false`, Go's zero
      value for a missing map entry. */
  function Lookup(keys: KeyMap, k: KeyCode): (down: bool)
    ensures down ==> k in keys
  {
    k in keys && keys[k]
  }

  /** The records that write the store: key records that are not repeats. */
  predicate ChangesState(e: InputEvent) {
    e.kind == EventKey && e.value != Repeat
  }

  /** The store after one record. */
  function Apply(keys: KeyMap, e: InputEvent): (r: KeyMap)
    ensures e.kind != EventKey ==> r == keys
    ensures e.kind == EventKey && e.value == Repeat ==> r == keys
    ensures e.kind == EventKey && e.value != Repeat ==>
      && r.Keys == keys.Keys + {e.code}
      && r[e.code] == (e.value == Press)
      && forall k :: k in keys && k != e.code ==> r[k] == keys[k]
  {
    if ChangesState(e) then keys[e.code := e.value == Press] else keys
  }

  /** The store after a sequence of records, in order. */
  function ApplyAll(keys: KeyMap, evs: seq<InputEvent>): KeyMap
    decreases |evs|
  {
    if evs == [] then keys else ApplyAll(Apply(keys, evs[0]), evs[1..])
  }

  /** Reference definition: what the last record that writes key `k` set it
      to, or `None` if no record writes it. */
  function LastSetting(evs: seq<InputEvent>, k: KeyCode): Option<bool>
    decreases |evs|
  {
    if evs == [] then None
    else
      var e := evs[|evs| - 1];
      if ChangesState(e) && e.code == k then Some(e.value == Press)
      else LastSetting(evs[..|evs| - 1], k)
  }

  /** Only the store-writing records of a sequence, in order. */
  function Writes(evs: seq<InputEvent>): (r: seq<InputEvent>)
    ensures forall i :: 0 <= i < |r| ==> ChangesState(r[i])
    ensures forall e :: e in r <==> e in evs && ChangesState(e)
    ensures |r| <= |evs|
    decreases |evs|
  {
    if evs == [] then []
    else
      assert forall e :: e in evs <==> e == evs[0] || e in evs[1..];
      (if ChangesState(evs[0]) then [evs[0]] else []) + Writes(evs[1..])
  }

  /** Filtering keeps order: the writes of two sequences run back to back. */
  lemma {:induction false} WritesAppend(a: seq<InputEvent>, b: seq<InputEvent>)
    ensures Writes(a + b) == Writes(a) + Writes(b)
    decreases |a|
  {
    if a == [] {
      assert a + b == b;
    } else {
      assert (a + b)[0] == a[0] && (a + b)[1..] == a[1..] + b;
      WritesAppend(a[1..], b);
    }
  }

  /** Applying one more record is one more step of the fold. */
  lemma {:induction false} ApplyAllSnoc(keys: KeyMap, evs: seq<InputEvent>, e: InputEvent)
    ensures ApplyAll(keys, evs + [e]) == Apply(ApplyAll(keys, evs), e)
    decreases |evs|
  {
    if evs == [] {
      assert evs + [e] == [e];
      assert [e][1..] == [];
    } else {
      assert (evs + [e])[1..] == evs[1..] + [e];
      ApplyAllSnoc(Apply(keys, evs[0]), evs[1..], e);
    }
  }

  /** After any sequence of records, a key reads as what the last record that
      wrote it set it to (`Value == press`), and as before when none did. */
  lemma {:induction false} LookupIsLastSetting(keys: KeyMap, evs: seq<InputEvent>, k: KeyCode)
    ensures Lookup(ApplyAll(keys, evs), k) ==
      match LastSetting(evs, k)
      case Some(down) => down
      case None => Lookup(keys, k)
    decreases |evs|
  {
    if evs != [] {
      var init, e := evs[..|evs| - 1], evs[|evs| - 1];
      assert evs == init + [e];
      ApplyAllSnoc(keys, init, e);
      LookupIsLastSetting(keys, init, k);
    }
  }

  /** From the store the keyboard starts with (empty), a key is down exactly
      when the last record that wrote it was a press; a key never written is up. */
  lemma LookupFromEmpty(evs: seq<InputEvent>, k: KeyCode)
    ensures Lookup(ApplyAll(map[], evs), k) <==> LastSetting(evs, k) == Some(true)
  {
    LookupIsLastSetting(map[], evs, k);
  }

  /** `LastSetting` picks the last writing record: it is `None` exactly when no
      record writes `k`, and otherwise some record writes `k` with that value
      and no later record writes `k`. */
  lemma {:induction false} LastSettingIsLastWrite(evs: seq<InputEvent>, k: KeyCode)
    ensures LastSetting(evs, k).None? <==>
      forall i :: 0 <= i < |evs| ==> !(ChangesState(evs[i]) && evs[i].code == k)
    ensures LastSetting(evs, k).Some? ==>
      exists i :: 0 <= i < |evs| && ChangesState(evs[i]) && evs[i].code == k
        && LastSetting(evs, k).value == (evs[i].value == Press)
        && forall j :: i < j < |evs| ==> !(ChangesState(evs[j]) && evs[j].code == k)
    decreases |evs|
  {
    if evs != [] {
      var n := |evs| - 1;
      var init := evs[..n];
      LastSettingIsLastWrite(init, k);
      if !(ChangesState(evs[n]) && evs[n].code == k) {
        assert forall i :: 0 <= i < n ==> init[i] == evs[i];
        if LastSetting(init, k).Some? {
          var i :| 0 <= i < |init| && ChangesState(init[i]) && init[i].code == k
            && LastSetting(init, k).value == (init[i].value == Press)
            && forall j :: i < j < |init| ==> !(ChangesState(init[j]) && init[j].code == k);
          assert forall j :: i < j < |evs| ==> !(ChangesState(evs[j]) && evs[j].code == k) by {
            forall j | i < j < |evs| ensures !(ChangesState(evs[j]) && evs[j].code == k) {
              if j < n { assert evs[j] == init[j]; }
            }
          }
        }
      }
    }
  }

  /** A repeat record never changes the store, so it never changes `IsDown`. */
  lemma RepeatKeepsStore(keys: KeyMap, evs: seq<InputEvent>, e: InputEvent)
    requires e.kind == EventKey && e.value == Repeat
    ensures ApplyAll(keys, evs + [e]) == ApplyAll(keys, evs)
  {
    ApplyAllSnoc(keys, evs, e);
  }

  /** Dropping every record that does not write the store (other kinds,
      repeats) leaves the final store the same. */
  lemma {:induction false} OnlyWritesMatter(keys: KeyMap, evs: seq<InputEvent>)
    ensures ApplyAll(keys, evs) == ApplyAll(keys, Writes(evs))
    decreases |evs|
  {
    if evs != [] {
      OnlyWritesMatter(Apply(keys, evs[0]), evs[1..]);
      if ChangesState(evs[0]) {
        var w := [evs[0]] + Writes(evs[1..]);
        assert w[0] == evs[0] && w[1..] == Writes(evs[1..]);
      } else {
        assert Writes(evs) == Writes(evs[1..]);
      }
    }
  }
}
