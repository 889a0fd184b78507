/**
 * The best-time store of the complete game window: a JSON object keyed by the
 * level rendered as a decimal string, each entry an object with a "time" field
 * in whole seconds. Older files hold a bare integer instead of the object.
 */
module Records {
  import opened Wrappers

  /** A value of the stored JSON object: a bare integer or an object of integer fields. */
  datatype Value = Int(i: int) | Dict(fields: map<string, int>)

  const TimeField: string := "time"

  /** Every entry is an object, as after loading and after every update. */
  predicate Normal(records: map<string, Value>) {
    forall k :: k in records ==> records[k].Dict?
  }

  /** The best time stored under `key`; a missing entry or field reads as no record. */
  function BestTime(records: map<string, Value>, key: string): Option<int> {
    if key in records && records[key].Dict? && TimeField in records[key].fields
    then Some(records[key].fields[TimeField])
    else None
  }

  // ---------------------------------------------------------------------------
  // Keys

  function Digit(d: nat): char
    requires d < 10
  {
    (48 + d) as char
  }

  /** Python's `str(n)` for a natural number: its decimal digits. */
  function Str(n: nat): (s: string)
    ensures |s| >= 1
    ensures n >= 10 ==> |s| >= 2
    ensures forall c :: c in s ==> '0' <= c <= '9'
  {
    if n < 10 then [Digit(n)] else Str(n / 10) + [Digit(n % 10)]
  }

  /** Distinct levels are stored under distinct keys. */
  lemma {:induction false} StrInjective(a: nat, b: nat)
    requires Str(a) == Str(b)
    ensures a == b
  {
    if a >= 10 && b >= 10 {
      var sa, sb := Str(a), Str(b);
      assert sa[|sa| - 1] == Digit(a % 10) && sb[|sb| - 1] == Digit(b % 10);
      assert sa[..|sa| - 1] == Str(a / 10);
      assert sb[..|sb| - 1] == Str(b / 10);
      StrInjective(a / 10, b / 10);
    }
  }

  // ---------------------------------------------------------------------------
  // Loading

  /** The entry a loaded value is rewritten to: a bare integer v becomes {"time": v}. */
  function Normalise(v: Value): Value {
    if v.Dict? then v else Dict(map[TimeField := v.i])
  }

  /**
   * The rewriting loop run over a freshly parsed records object: every
   * non-object value v is replaced by {"time": v}, object values are kept,
   * and the keys stay the same. A bare integer N then reads exactly as
   * {"time": N} would.
   */
  method LoadRecords(parsed: map<string, Value>) returns (records: map<string, Value>)
    ensures records.Keys == parsed.Keys
    ensures forall k :: k in parsed ==> records[k] == Normalise(parsed[k])
    ensures Normal(records)
    ensures forall k :: k in parsed && parsed[k].Int? ==> BestTime(records, k) == Some(parsed[k].i)
  {
    records := parsed;
    var pending := parsed.Keys;
    while pending != {}
      invariant pending <= parsed.Keys
      invariant records.Keys == parsed.Keys
      invariant forall k :: k in parsed && k !in pending ==> records[k] == Normalise(parsed[k])
      invariant forall k :: k in pending ==> records[k] == parsed[k]
      decreases pending
    {
      var k :| k in pending;
      if !records[k].Dict? {
        records := records[k := Dict(map[TimeField := records[k].i])];
      }
      pending := pending - {k};
    }
  }

  // ---------------------------------------------------------------------------
  // Updating

  /**
   * `update_record`: store {"time": t} under `key` when there is no best time
   * yet or `t` is strictly smaller; otherwise leave the store alone. The best
   * time afterwards is the minimum of the old one and `t`, and no other key
   * changes.
   */
  function Improve(records: map<string, Value>, key: string, t: int): (r: map<string, Value>)
    ensures BestTime(r, key) == Some(
      match BestTime(records, key)
      case None => t
      case Some(best) => if t < best then t else best)
    ensures forall k :: k != key ==> (k in r <==> k in records) && (k in r ==> r[k] == records[k])
    ensures Normal(records) ==> Normal(r)
    ensures BestTime(records, key).Some? && t >= BestTime(records, key).value ==> r == records
  {
    var best := BestTime(records, key);
    if best.None? || t < best.value then records[key := Dict(map[TimeField := t])] else records
  }

  /** An update for one level never changes the best time of another. */
  lemma UpdateLeavesOtherLevels(records: map<string, Value>, level: nat, other: nat, t: int)
    requires level != other
    ensures BestTime(Improve(records, Str(level), t), Str(other)) == BestTime(records, Str(other))
  {
    if Str(level) == Str(other) {
      StrInjective(level, other);
    }
  }

  /** The store after a run of updates for one key, in order. */
  function ImproveAll(records: map<string, Value>, key: string, ts: seq<int>): map<string, Value>
    decreases |ts|
  {
    if ts == [] then records else ImproveAll(Improve(records, key, ts[0]), key, ts[1..])
  }

  /**
   * After any run of updates the stored time is the minimum of the earlier
   * best time and every time passed; with no earlier record and no update
   * there is none.
   */
  lemma {:induction false} RecordIsMinimum(records: map<string, Value>, key: string, ts: seq<int>)
    ensures var before, after := BestTime(records, key), BestTime(ImproveAll(records, key, ts), key);
      && (after.None? <==> before.None? && ts == [])
      && (after.Some? ==> forall i :: 0 <= i < |ts| ==> after.value <= ts[i])
      && (after.Some? && before.Some? ==> after.value <= before.value)
      && (after.Some? ==> after.value in ts || after == before)
    decreases |ts|
  {
    if ts != [] {
      var next := Improve(records, key, ts[0]);
      RecordIsMinimum(next, key, ts[1..]);
      var after := BestTime(ImproveAll(records, key, ts), key);
      assert ImproveAll(records, key, ts) == ImproveAll(next, key, ts[1..]);
      forall i | 0 <= i < |ts|
        ensures after.value <= ts[i]
      {
        if i > 0 {
          assert ts[i] == ts[1..][i - 1];
        }
      }
      if after.value !in ts {
        assert after.value !in ts[1..];
        assert after == BestTime(next, key);
        assert after.value != ts[0];
      }
    }
  }
}
