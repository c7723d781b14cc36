/** The `Data` constructor: every raw record becomes a fresh cleansed record
    whose keys are trimmed and whose date/time fields hold Dates. */
module Normaliser {
  import opened JsValues
  import opened Keys

  /** A raw record: its (key, value) pairs in the order `_.each` visits them. */
  type RawRecord = seq<(string, Value)>

  /** A cleansed record: an object as a map from property name to value. */
  type Record = map<string, Value>

  /** The value stored for one raw pair: `new Date(value)` when the raw key
      matches `/date|time/i`, the value itself otherwise. */
  function Convert(key: string, value: Value, parse: string -> TimeValue): (v: Value)
    ensures MatchesDateTime(key) ==> v.Date?
    ensures !MatchesDateTime(key) ==> v == value
  {
    if MatchesDateTime(key) then Date(ToDate(value, parse)) else value
  }

  /** The cleansed object after assigning the pairs of `raw` one at a time,
      `cleansed[key.trim()] = ...`; a later assignment to the same trimmed
      key overwrites an earlier one. */
  function Cleanse(raw: RawRecord, parse: string -> TimeValue): Record
  {
    if raw == [] then map[]
    else
      var (key, value) := raw[|raw| - 1];
      Cleanse(raw[..|raw| - 1], parse)[Trim(key) := Convert(key, value, parse)]
  }

  /** The trimmed forms of the raw keys. */
  ghost function TrimmedKeys(raw: RawRecord): set<string>
  {
    set i | 0 <= i < |raw| :: Trim(raw[i].0)
  }

  /** `_.each(datum, ...)` with the assignment of js/data.js line 7. */
  method CleanseRecord(datum: RawRecord, parse: string -> TimeValue) returns (cleansed: Record)
    ensures cleansed == Cleanse(datum, parse)
  {
    cleansed := map[];
    var i := 0;
    while i < |datum|
      invariant 0 <= i <= |datum|
      invariant cleansed == Cleanse(datum[..i], parse)
    {
      var (key, value) := datum[i];
      assert datum[..i + 1][..i] == datum[..i];
      cleansed := cleansed[Trim(key) := Convert(key, value, parse)];
      i := i + 1;
    }
    assert datum[..|datum|] == datum;
  }

  /** `_.map(data, ...)`: one cleansed record per raw record, in order. */
  method Normalise(data: seq<RawRecord>, parse: string -> TimeValue) returns (cleansed: seq<Record>)
    ensures |cleansed| == |data|
    ensures forall i :: 0 <= i < |data| ==> cleansed[i] == Cleanse(data[i], parse)
  {
    cleansed := [];
    var i := 0;
    while i < |data|
      invariant 0 <= i <= |data| && |cleansed| == i
      invariant forall j :: 0 <= j < i ==> cleansed[j] == Cleanse(data[j], parse)
    {
      var record := CleanseRecord(data[i], parse);
      cleansed := cleansed + [record];
      i := i + 1;
    }
  }

  /** The cleansed keys are exactly the trimmed raw keys. */
  lemma {:induction false} CleanseKeys(raw: RawRecord, parse: string -> TimeValue)
    ensures Cleanse(raw, parse).Keys == TrimmedKeys(raw)
  {
    if raw != [] {
      var init := raw[..|raw| - 1];
      CleanseKeys(init, parse);
      forall k | k in TrimmedKeys(raw) ensures k in TrimmedKeys(init) + {Trim(raw[|raw| - 1].0)} {
        var i :| 0 <= i < |raw| && Trim(raw[i].0) == k;
        if i < |raw| - 1 {
          assert init[i] == raw[i];
        }
      }
      forall k | k in TrimmedKeys(init) ensures k in TrimmedKeys(raw) {
        var i :| 0 <= i < |init| && Trim(init[i].0) == k;
        assert raw[i] == init[i];
      }
    }
  }

  /** No cleansed key has white space at either end. */
  lemma CleanseKeysTrimmed(raw: RawRecord, parse: string -> TimeValue, k: string)
    requires k in Cleanse(raw, parse)
    ensures IsTrimmed(k)
  {
    CleanseKeys(raw, parse);
    var i :| 0 <= i < |raw| && Trim(raw[i].0) == k;
    var _, _ := TrimBounds(raw[i].0);
  }

  /** The pair at index `i` decides the cleansed value of its trimmed key
      when no later pair trims to the same key: the last assignment wins. */
  lemma {:induction false} CleanseLastWins(raw: RawRecord, parse: string -> TimeValue, i: nat)
    requires i < |raw|
    requires forall j :: i < j < |raw| ==> Trim(raw[j].0) != Trim(raw[i].0)
    ensures Trim(raw[i].0) in Cleanse(raw, parse)
    ensures Cleanse(raw, parse)[Trim(raw[i].0)] == Convert(raw[i].0, raw[i].1, parse)
  {
    if i < |raw| - 1 {
      var init := raw[..|raw| - 1];
      assert init[i] == raw[i];
      forall j | i < j < |init| ensures Trim(init[j].0) != Trim(init[i].0) {
        assert init[j] == raw[j];
      }
      CleanseLastWins(init, parse, i);
    }
  }

  /** The last index at which `k` occurs in `ks`. */
  lemma LastIndexOf(ks: seq<string>, k: string) returns (i: nat)
    requires k in ks
    ensures i < |ks| && ks[i] == k
    ensures forall l :: i < l < |ks| ==> ks[l] != k
  {
    i := |ks| - 1;
    while ks[i] != k
      invariant k in ks[..i + 1]
      invariant forall l :: i < l < |ks| ==> ks[l] != k
      decreases i
    {
      i := i - 1;
    }
  }

  /** Every cleansed entry comes from the last raw pair whose key trims to
      it; its value is a Date exactly when that (trimmed) key contains
      "date" or "time" in any letter case, and is the raw value unchanged
      otherwise. */
  lemma CleanseEntry(raw: RawRecord, parse: string -> TimeValue, k: string) returns (i: nat)
    requires k in Cleanse(raw, parse)
    ensures i < |raw| && Trim(raw[i].0) == k
    ensures forall j :: i < j < |raw| ==> Trim(raw[j].0) != k
    ensures Cleanse(raw, parse)[k] ==
              if MatchesDateTime(k) then Date(ToDate(raw[i].1, parse)) else raw[i].1
  {
    assert k in TrimmedKeys(raw) by { CleanseKeys(raw, parse); }
    var keys := seq(|raw|, l requires 0 <= l < |raw| => Trim(raw[l].0));
    var j :| 0 <= j < |raw| && Trim(raw[j].0) == k;
    assert keys[j] == k;
    i := LastIndexOf(keys, k);
    assert Trim(raw[i].0) == k by { assert keys[i] == k; }
    forall l | i < l < |raw| ensures Trim(raw[l].0) != k {
      assert keys[l] != k;
    }
    CleanseLastWins(raw, parse, i);
    MatchesDateTimeTrim(raw[i].0);
    assert MatchesDateTime(k) == MatchesDateTime(raw[i].0);
    assert Cleanse(raw, parse)[k] == Convert(raw[i].0, raw[i].1, parse);
  }

  /** A cleansed field whose key names a date or a time always holds a Date
      (possibly an Invalid Date). */
  lemma CleansedDateField(raw: RawRecord, parse: string -> TimeValue, k: string)
    requires k in Cleanse(raw, parse) && MatchesDateTime(k)
    ensures Cleanse(raw, parse)[k].Date?
  {
    var _ := CleanseEntry(raw, parse, k);
  }

  class Data {
    var data: seq<Record>

    /** js/data.js lines 2-11. */
    constructor (raw: seq<RawRecord>, parse: string -> TimeValue)
      ensures |data| == |raw|
      ensures forall i :: 0 <= i < |raw| ==> data[i] == Cleanse(raw[i], parse)
    {
      var cleansed := Normalise(raw, parse);
      data := cleansed;
    }
  }
}
