/**
 * The save policy for captured values, which the content script's
 * `handleValueSave` and the storage service's `saveValue` both follow: reject
 * values shorter than two characters once trimmed, reject a value some stored
 * entry already equals ignoring case, otherwise put a new entry holding the
 * trimmed value in front of the list.
 */
module ValueStore {
  import opened Wrappers
  import opened Text
  import opened Types

  /** The fewest UTF-16 code units a trimmed value needs to be remembered. */
  const MinLength: nat := 2

  /** `!value || value.trim().length < 2` */
  predicate TooShort(value: string) {
    value == [] || Utf16Length(Trim(value)) < MinLength
  }

  /**
   * The length test counts UTF-16 code units: one emoji is long enough to be
   * remembered, one letter is not.
   */
  lemma OneAstralCharacterIsLongEnough()
    ensures !TooShort("\U{1F600}")
    ensures TooShort("a")
  {
    var e: string := "\U{1F600}";
    assert !IsSpace(e[0]);
    assert TrimStart(e) == e;
    assert TrimEnd(e) == e;
    assert Trim(e) == e;
    assert e[1..] == [];
    assert Utf16Length(e) == 2;
    var a: string := "a";
    assert !IsSpace(a[0]);
    assert TrimStart(a) == a;
    assert TrimEnd(a) == a;
    assert Trim(a) == a;
  }

  /** `a.toLowerCase() === b.toLowerCase()` */
  predicate SameIgnoringCase(a: string, b: string) {
    ToLower(a) == ToLower(b)
  }

  /** `values.some(v => v.value.toLowerCase() === value.toLowerCase())` */
  predicate Known(values: seq<CapturedValue>, value: string) {
    exists v :: v in values && SameIgnoringCase(v.value, value)
  }

  /** No two stored entries hold the same value ignoring case. */
  predicate NoCaseDuplicates(values: seq<CapturedValue>) {
    forall i, j :: 0 <= i < j < |values| ==> !SameIgnoringCase(values[i].value, values[j].value)
  }

  /** Every stored value is trimmed and at least two UTF-16 code units long. */
  predicate WellFormed(values: seq<CapturedValue>) {
    forall v :: v in values ==> IsTrimmed(v.value) && Utf16Length(v.value) >= MinLength
  }

  /**
   * The list after saving `value` as written in the source: `None` when the
   * value is rejected, otherwise the new entry followed by the old list.
   * The existence test compares the untrimmed input.
   */
  function Insert(values: seq<CapturedValue>, value: string, id: string, timestamp: int, sourceUrl: string)
    : (r: Option<seq<CapturedValue>>)
    ensures r.None? <==> TooShort(value) || Known(values, value)
    ensures r.Some? ==> |r.value| == |values| + 1 && r.value[1..] == values
    ensures r.Some? ==> r.value[0].value == Trim(value) && r.value[0].id == id
    ensures r.Some? ==> r.value[0].timestamp == timestamp && r.value[0].sourceUrl == sourceUrl
  {
    if TooShort(value) || Known(values, value) then None
    else Some([CapturedValue(id, Trim(value), timestamp, sourceUrl)] + values)
  }

  /** An accepted value is stored trimmed and long enough: the list stays well formed. */
  lemma InsertKeepsWellFormed(values: seq<CapturedValue>, value: string, id: string, timestamp: int, sourceUrl: string)
    requires WellFormed(values)
    ensures Insert(values, value, id, timestamp, sourceUrl).Some? ==>
              WellFormed(Insert(values, value, id, timestamp, sourceUrl).value)
  {
  }

  /** Putting an entry whose value is not yet known in front keeps the list free of duplicates. */
  lemma PrependKeepsUnique(values: seq<CapturedValue>, entry: CapturedValue)
    requires NoCaseDuplicates(values)
    requires !Known(values, entry.value)
    ensures NoCaseDuplicates([entry] + values)
  {
    var r := [entry] + values;
    forall i, j | 0 <= i < j < |r| ensures !SameIgnoringCase(r[i].value, r[j].value) {
      if i == 0 {
        assert r[j] == values[j - 1];
        assert r[j] in values;
      } else {
        assert r[i] == values[i - 1] && r[j] == values[j - 1];
      }
    }
  }

  /** For an input that is already trimmed, the list keeps at most one entry per value ignoring case. */
  lemma InsertKeepsUnique(values: seq<CapturedValue>, value: string, id: string, timestamp: int, sourceUrl: string)
    requires IsTrimmed(value)
    requires NoCaseDuplicates(values)
    ensures Insert(values, value, id, timestamp, sourceUrl).Some? ==>
              NoCaseDuplicates(Insert(values, value, id, timestamp, sourceUrl).value)
  {
    if Insert(values, value, id, timestamp, sourceUrl).Some? {
      TrimOfTrimmed(value);
      PrependKeepsUnique(values, CapturedValue(id, Trim(value), timestamp, sourceUrl));
    }
  }

  /** Saving a trimmed value a second time, in any letter case, is rejected. */
  lemma InsertAgainRejected(values: seq<CapturedValue>, value: string, again: string,
                            id: string, timestamp: int, sourceUrl: string, id': string, timestamp': int)
    requires IsTrimmed(value)
    requires SameIgnoringCase(value, again)
    requires Insert(values, value, id, timestamp, sourceUrl).Some?
    ensures Insert(Insert(values, value, id, timestamp, sourceUrl).value, again, id', timestamp', sourceUrl).None?
  {
    TrimOfTrimmed(value);
    var r := Insert(values, value, id, timestamp, sourceUrl).value;
    assert r[0] in r;
  }

  /** The padded input of the counterexample below trims to "ab". */
  lemma PaddedInputTrim()
    ensures Trim(" ab") == "ab"
  {
    var s: string := " ab";
    var t: string := "ab";
    assert IsSpace(s[0]) && s[1..] == t;
    assert !IsSpace(t[0]) && !IsSpace(t[1]);
    assert TrimStart(t) == t;
    assert TrimStart(s) == t;
    assert TrimEnd(t) == t;
  }

  /** The padded input is long enough and differs from "ab" ignoring case. */
  lemma PaddedInputFacts()
    ensures Trim(" ab") == "ab"
    ensures !TooShort(" ab")
    ensures !SameIgnoringCase("ab", " ab")
  {
    PaddedInputTrim();
    var t: string := "ab";
    assert t[1..] == "b" && t[1..][1..] == [];
    assert Utf16Length(t) == 2;
    assert |ToLower(t)| != |ToLower(" ab")|;
  }

  /** Saving " ab" next to a stored "ab" is accepted, and the new entry holds "ab". */
  lemma PaddedInsertResult()
    ensures Insert([CapturedValue("1", "ab", 1, "")], " ab", "2", 2, "") ==
              Some([CapturedValue("2", "ab", 2, ""), CapturedValue("1", "ab", 1, "")])
  {
    var values := [CapturedValue("1", "ab", 1, "")];
    PaddedInputFacts();
    assert !Known(values, " ab") by {
      forall v | v in values ensures !SameIgnoringCase(v.value, " ab") {
        assert v == values[0];
      }
    }
    assert [CapturedValue("2", "ab", 2, "")] + values == [CapturedValue("2", "ab", 2, ""), CapturedValue("1", "ab", 1, "")];
  }

  /**
   * As written, a value with surrounding white space is compared untrimmed but
   * stored trimmed, so typing " ab" next to a stored "ab" stores "ab" twice.
   */
  lemma InsertDuplicatesPaddedValue()
    ensures Insert([CapturedValue("1", "ab", 1, "")], " ab", "2", 2, "").Some?
    ensures !NoCaseDuplicates(Insert([CapturedValue("1", "ab", 1, "")], " ab", "2", 2, "").value)
  {
    PaddedInsertResult();
    var r := Insert([CapturedValue("1", "ab", 1, "")], " ab", "2", 2, "").value;
    assert r[0].value == r[1].value;
  }

  /** The evidently intended policy: the existence test compares the trimmed value. */
  function InsertNormalized(values: seq<CapturedValue>, value: string, id: string, timestamp: int, sourceUrl: string)
    : (r: Option<seq<CapturedValue>>)
    ensures r.None? <==> TooShort(value) || Known(values, Trim(value))
    ensures r.Some? ==> r.value == [CapturedValue(id, Trim(value), timestamp, sourceUrl)] + values
  {
    if TooShort(value) || Known(values, Trim(value)) then None
    else Some([CapturedValue(id, Trim(value), timestamp, sourceUrl)] + values)
  }

  /** With the trimmed comparison, the list keeps at most one entry per value ignoring case, whatever the input. */
  lemma InsertNormalizedKeepsUnique(values: seq<CapturedValue>, value: string, id: string, timestamp: int, sourceUrl: string)
    requires NoCaseDuplicates(values)
    ensures InsertNormalized(values, value, id, timestamp, sourceUrl).Some? ==>
              NoCaseDuplicates(InsertNormalized(values, value, id, timestamp, sourceUrl).value)
  {
    if InsertNormalized(values, value, id, timestamp, sourceUrl).Some? {
      PrependKeepsUnique(values, CapturedValue(id, Trim(value), timestamp, sourceUrl));
    }
  }

  /** The two policies agree on every input that is already trimmed. */
  lemma InsertAgreesOnTrimmed(values: seq<CapturedValue>, value: string, id: string, timestamp: int, sourceUrl: string)
    requires IsTrimmed(value)
    ensures Insert(values, value, id, timestamp, sourceUrl) == InsertNormalized(values, value, id, timestamp, sourceUrl)
  {
    TrimOfTrimmed(value);
  }
}
