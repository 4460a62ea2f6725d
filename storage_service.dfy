/**
 * The popup-side storage service. The backing store is an explicit value:
 * either the extension's local storage, read as two independently optional
 * keys, or the development fallback, a single optional slot holding the whole
 * record. Each operation returns the store after its write.
 */
module StorageService {
  import opened Wrappers
  import opened Text
  import opened Types
  import opened ValueStore

  /** What a store holds: extension storage keys, or the development slot. */
  datatype Store =
    | Extension(capturedValues: Option<seq<CapturedValue>>, config: Option<Config>)
    | DevFallback(slot: Option<StorageData>)

  /** Both toggles on. */
  const DefaultConfig: Config := Config(true, true)

  /** The record used when nothing is stored. */
  const DefaultData: StorageData := StorageData([], DefaultConfig)

  /** The outcome of `saveValue`: whether it saved, and the store afterwards. */
  datatype SaveResult = SaveResult(saved: bool, store: Store)

  /** `getStorageData`: what is stored, each missing part replaced by its default. */
  function GetStorageData(store: Store): (d: StorageData)
    ensures store.Extension? && store.capturedValues.None? ==> d.capturedValues == []
    ensures store.Extension? && store.config.None? ==> d.config == DefaultConfig
    ensures store.DevFallback? && store.slot.None? ==> d == DefaultData
    ensures store.Extension? && store.capturedValues.Some? ==> d.capturedValues == store.capturedValues.value
    ensures store.Extension? && store.config.Some? ==> d.config == store.config.value
    ensures store.DevFallback? && store.slot.Some? ==> d == store.slot.value
  {
    match store
    case Extension(values, config) => StorageData(values.GetOr([]), config.GetOr(DefaultConfig))
    case DevFallback(slot) => slot.GetOr(DefaultData)
  }

  /** The write shared by every operation: replace the captured values, keep everything else. */
  function WriteValues(store: Store, values: seq<CapturedValue>): (r: Store)
    ensures GetStorageData(r).capturedValues == values
    ensures GetStorageData(r).config == GetStorageData(store).config
    ensures r.Extension? <==> store.Extension?
  {
    match store
    case Extension(_, config) => Extension(Some(values), config)
    case DevFallback(_) => DevFallback(Some(GetStorageData(store).(capturedValues := values)))
  }

  /**
   * `saveValue(val, sourceUrl)`, with the fresh identifier and the current
   * time passed in.
   */
  function SaveValue(store: Store, val: string, sourceUrl: string, uuid: string, now: int): (r: SaveResult)
    ensures !r.saved ==> r.store == store
    ensures r.store.Extension? <==> store.Extension?
    ensures GetStorageData(r.store).config == GetStorageData(store).config
  {
    if TooShort(val) then SaveResult(false, store)
    else
      var data := GetStorageData(store);
      if Known(data.capturedValues, val) then SaveResult(false, store)
      else
        var newValue := CapturedValue(uuid, Trim(val), now, sourceUrl);
        SaveResult(true, WriteValues(store, [newValue] + data.capturedValues))
  }

  /** `saveValue` reports failure exactly for a short or already known value, and then writes nothing. */
  lemma SaveValueRejects(store: Store, val: string, sourceUrl: string, uuid: string, now: int)
    ensures !SaveValue(store, val, sourceUrl, uuid, now).saved <==>
              TooShort(val) || Known(GetStorageData(store).capturedValues, val)
    ensures !SaveValue(store, val, sourceUrl, uuid, now).saved ==> SaveValue(store, val, sourceUrl, uuid, now).store == store
  {
  }

  /**
   * A successful save puts one new entry, holding the trimmed value, in front
   * of the stored list; the configuration reads back unchanged.
   */
  lemma SaveValueStores(store: Store, val: string, sourceUrl: string, uuid: string, now: int)
    requires SaveValue(store, val, sourceUrl, uuid, now).saved
    ensures GetStorageData(SaveValue(store, val, sourceUrl, uuid, now).store).capturedValues ==
              [CapturedValue(uuid, Trim(val), now, sourceUrl)] + GetStorageData(store).capturedValues
    ensures GetStorageData(SaveValue(store, val, sourceUrl, uuid, now).store).config == GetStorageData(store).config
    ensures Utf16Length(Trim(val)) >= MinLength
  {
  }

  /** `saveValue` follows the shared save policy exactly. */
  lemma SaveValueFollowsPolicy(store: Store, val: string, sourceUrl: string, uuid: string, now: int)
    ensures var r := SaveValue(store, val, sourceUrl, uuid, now);
            var policy := Insert(GetStorageData(store).capturedValues, val, uuid, now, sourceUrl);
            r.saved == policy.Some? && (r.saved ==> GetStorageData(r.store).capturedValues == policy.value)
  {
  }

  /** Saving trimmed input keeps the stored values unique ignoring case. */
  lemma SaveValueKeepsUnique(store: Store, val: string, sourceUrl: string, uuid: string, now: int)
    requires IsTrimmed(val)
    requires NoCaseDuplicates(GetStorageData(store).capturedValues)
    ensures NoCaseDuplicates(GetStorageData(SaveValue(store, val, sourceUrl, uuid, now).store).capturedValues)
  {
    InsertKeepsUnique(GetStorageData(store).capturedValues, val, uuid, now, sourceUrl);
  }

  /** After saving a trimmed value, saving it again in any letter case fails and changes nothing. */
  lemma SaveValueTwice(store: Store, val: string, again: string, sourceUrl: string, uuid: string, now: int,
                       uuid': string, now': int)
    requires IsTrimmed(val) && SameIgnoringCase(val, again)
    requires SaveValue(store, val, sourceUrl, uuid, now).saved
    ensures var first := SaveValue(store, val, sourceUrl, uuid, now).store;
            SaveValue(first, again, sourceUrl, uuid', now') == SaveResult(false, first)
  {
    var values := GetStorageData(store).capturedValues;
    InsertAgainRejected(values, val, again, uuid, now, sourceUrl, uuid', now');
    var first := SaveValue(store, val, sourceUrl, uuid, now).store;
    assert GetStorageData(first).capturedValues == Insert(values, val, uuid, now, sourceUrl).value;
    SaveValueRejects(first, again, sourceUrl, uuid', now');
  }

  /** `filter(v => v.id !== id)` */
  function WithoutId(values: seq<CapturedValue>, id: string): (r: seq<CapturedValue>)
    ensures |r| <= |values|
    ensures forall v :: v in r ==> v in values && v.id != id
  {
    if values == [] then []
    else (if values[0].id != id then [values[0]] else []) + WithoutId(values[1..], id)
  }

  /** Removal keeps exactly the entries with another identifier. */
  lemma {:induction false} WithoutIdMembers(values: seq<CapturedValue>, id: string)
    ensures forall v :: v in WithoutId(values, id) <==> v in values && v.id != id
  {
    if values != [] {
      WithoutIdMembers(values[1..], id);
      assert values == [values[0]] + values[1..];
    }
  }

  /** Removal works piece by piece, so the kept entries stay in their order. */
  lemma {:induction false} WithoutIdAppend(a: seq<CapturedValue>, b: seq<CapturedValue>, id: string)
    ensures WithoutId(a + b, id) == WithoutId(a, id) + WithoutId(b, id)
  {
    if a != [] {
      assert (a + b)[1..] == a[1..] + b;
      WithoutIdAppend(a[1..], b, id);
    } else {
      assert a + b == b;
    }
  }

  /** Removing an identifier nothing has leaves the list as it was. */
  lemma {:induction false} WithoutIdAbsent(values: seq<CapturedValue>, id: string)
    requires forall v :: v in values ==> v.id != id
    ensures WithoutId(values, id) == values
  {
    if values != [] {
      assert values[0] in values;
      assert forall v :: v in values[1..] ==> v in values;
      WithoutIdAbsent(values[1..], id);
    }
  }

  /** Removal keeps a list that was free of duplicates free of them. */
  lemma {:induction false} WithoutIdKeepsUnique(values: seq<CapturedValue>, id: string)
    requires NoCaseDuplicates(values)
    ensures NoCaseDuplicates(WithoutId(values, id))
  {
    if values != [] {
      var rest := values[1..];
      assert NoCaseDuplicates(rest) by {
        forall i, j | 0 <= i < j < |rest| ensures !SameIgnoringCase(rest[i].value, rest[j].value) {
          assert rest[i] == values[i + 1] && rest[j] == values[j + 1];
        }
      }
      WithoutIdKeepsUnique(rest, id);
      if values[0].id != id {
        WithoutIdMembers(rest, id);
        forall v | v in WithoutId(rest, id) ensures !SameIgnoringCase(v.value, values[0].value) {
          var j :| 0 <= j < |rest| && rest[j] == v;
          assert values[j + 1] == v;
        }
        PrependKeepsUnique(WithoutId(rest, id), values[0]);
      }
    }
  }

  /** `removeValue(id)` */
  function RemoveValue(store: Store, id: string): (r: Store)
    ensures r.Extension? <==> store.Extension?
    ensures GetStorageData(r).config == GetStorageData(store).config
    ensures |GetStorageData(r).capturedValues| <= |GetStorageData(store).capturedValues|
  {
    WriteValues(store, WithoutId(GetStorageData(store).capturedValues, id))
  }

  /**
   * After `removeValue(id)` the list holds exactly the entries with another
   * identifier, in their old order; the configuration reads back unchanged.
   */
  lemma RemoveValueEffect(store: Store, id: string)
    ensures var before := GetStorageData(store).capturedValues;
            var after := GetStorageData(RemoveValue(store, id)).capturedValues;
            && after == WithoutId(before, id)
            && (forall v :: v in after <==> v in before && v.id != id)
            && |after| <= |before|
            && GetStorageData(RemoveValue(store, id)).config == GetStorageData(store).config
  {
    WithoutIdMembers(GetStorageData(store).capturedValues, id);
  }

  /** `clearAll()`: the extension store gets an empty list; the development slot is removed. */
  function ClearAll(store: Store): (r: Store)
    ensures GetStorageData(r).capturedValues == []
    ensures r.Extension? <==> store.Extension?
  {
    match store
    case Extension(_, config) => Extension(Some([]), config)
    case DevFallback(_) => DevFallback(None)
  }

  /**
   * After `clearAll` no captured value reads back. The extension store keeps
   * its configuration; the development slot goes back to the defaults.
   */
  lemma ClearAllEffect(store: Store)
    ensures GetStorageData(ClearAll(store)).capturedValues == []
    ensures store.Extension? ==> GetStorageData(ClearAll(store)).config == GetStorageData(store).config
    ensures store.DevFallback? ==> GetStorageData(ClearAll(store)) == DefaultData
  {
  }

  /** Both default toggles are on. */
  lemma DefaultsAreOn()
    ensures GetStorageData(Extension(None, None)) == StorageData([], Config(true, true))
    ensures GetStorageData(DevFallback(None)) == StorageData([], Config(true, true))
  {
  }
}
