/**
 * `TelephoneNumberData`: the `id` and `telephone_number` properties are two
 * views of the single slot `full_number`, and `last_modified_date` is a view
 * of `last_modified`. A record is immutable here; a setter returns the record
 * after the assignment.
 */
module TelephoneNumber {

  /**
   * The backing slots; `V` is the type of an attribute value and `Rest` stands
   * for every other attribute of the telephone-number map, left opaque.
   */
  datatype TelephoneNumberData<V, Rest> = TelephoneNumberData(fullNumber: V, lastModified: V, rest: Rest)

  /** Reading `id`: the `full_number` slot, the same value `telephone_number` shows. */
  function Id<V, Rest>(d: TelephoneNumberData<V, Rest>): (r: V)
    ensures r == d.fullNumber && r == TelephoneNumber(d)
  {
    d.fullNumber
  }

  /** Reading `telephone_number`: the `full_number` slot. */
  function TelephoneNumber<V, Rest>(d: TelephoneNumberData<V, Rest>): (r: V)
    ensures r == d.fullNumber
  {
    d.fullNumber
  }

  /** Reading `last_modified_date`: the `last_modified` slot. */
  function LastModifiedDate<V, Rest>(d: TelephoneNumberData<V, Rest>): (r: V)
    ensures r == d.lastModified
  {
    d.lastModified
  }

  /** `id = x`: both number views then read `x`; nothing else changes. */
  function SetId<V, Rest>(d: TelephoneNumberData<V, Rest>, x: V): (d': TelephoneNumberData<V, Rest>)
    ensures Id(d') == x && TelephoneNumber(d') == x
    ensures LastModifiedDate(d') == LastModifiedDate(d) && d'.rest == d.rest
  {
    d.(fullNumber := x)
  }

  /** `telephone_number = x`: both number views then read `x`; nothing else changes. */
  function SetTelephoneNumber<V, Rest>(d: TelephoneNumberData<V, Rest>, x: V): (d': TelephoneNumberData<V, Rest>)
    ensures TelephoneNumber(d') == x && Id(d') == x
    ensures LastModifiedDate(d') == LastModifiedDate(d) && d'.rest == d.rest
  {
    d.(fullNumber := x)
  }

  /** `last_modified_date = x`: the date view then reads `x`; the number and the rest are kept. */
  function SetLastModifiedDate<V, Rest>(d: TelephoneNumberData<V, Rest>, x: V): (d': TelephoneNumberData<V, Rest>)
    ensures LastModifiedDate(d') == x && d'.lastModified == x
    ensures Id(d') == Id(d) && TelephoneNumber(d') == TelephoneNumber(d) && d'.rest == d.rest
  {
    d.(lastModified := x)
  }

  /**
   * The two number views agree on every record, and writing back what an
   * alias reads leaves the record as it was.
   */
  lemma AliasesAgree<V, Rest>(d: TelephoneNumberData<V, Rest>)
    ensures Id(d) == TelephoneNumber(d) == d.fullNumber
    ensures LastModifiedDate(d) == d.lastModified
    ensures SetId(d, Id(d)) == d && SetTelephoneNumber(d, TelephoneNumber(d)) == d
    ensures SetLastModifiedDate(d, LastModifiedDate(d)) == d
  {
  }

  /** An assignment a caller can make: through an alias or straight to a backing slot. */
  datatype Assignment<V> =
    | AssignId(v: V)
    | AssignTelephoneNumber(v: V)
    | AssignLastModifiedDate(v: V)
    | AssignFullNumber(v: V)
    | AssignLastModified(v: V)
  {
    /** Whether the assignment writes the `full_number` slot. */
    predicate WritesNumber() {
      AssignId? || AssignTelephoneNumber? || AssignFullNumber?
    }
  }

  function Apply<V, Rest>(d: TelephoneNumberData<V, Rest>, a: Assignment<V>): TelephoneNumberData<V, Rest> {
    match a
    case AssignId(x) => SetId(d, x)
    case AssignTelephoneNumber(x) => SetTelephoneNumber(d, x)
    case AssignLastModifiedDate(x) => SetLastModifiedDate(d, x)
    case AssignFullNumber(x) => d.(fullNumber := x)
    case AssignLastModified(x) => d.(lastModified := x)
  }

  /**
   * The record after the assignments, first to last. No assignment reaches
   * the other attributes of the map.
   */
  function Run<V, Rest>(d: TelephoneNumberData<V, Rest>, script: seq<Assignment<V>>): (r: TelephoneNumberData<V, Rest>)
    ensures r.rest == d.rest
    decreases |script|
  {
    if script == [] then d else Run(Apply(d, script[0]), script[1..])
  }

  /** Reference reading: the value of the last number write, or `init` when there is none. */
  function LastNumber<V>(script: seq<Assignment<V>>, init: V): V
    decreases |script|
  {
    if script == [] then init
    else if script[|script| - 1].WritesNumber() then script[|script| - 1].v
    else LastNumber(script[..|script| - 1], init)
  }

  /** Reference reading: the value of the last date write, or `init` when there is none. */
  function LastStamp<V>(script: seq<Assignment<V>>, init: V): V
    decreases |script|
  {
    if script == [] then init
    else if !script[|script| - 1].WritesNumber() then script[|script| - 1].v
    else LastStamp(script[..|script| - 1], init)
  }

  /**
   * In every reachable record `id` and `telephone_number` read the value of
   * the last write to any of the three number names, and `last_modified_date`
   * the last write to either date name.
   */
  lemma {:induction false} RunReadsLastWrite<V, Rest>(d: TelephoneNumberData<V, Rest>, script: seq<Assignment<V>>)
    ensures Id(Run(d, script)) == LastNumber(script, Id(d))
    ensures TelephoneNumber(Run(d, script)) == Id(Run(d, script))
    ensures LastModifiedDate(Run(d, script)) == LastStamp(script, LastModifiedDate(d))
    decreases |script|
  {
    if script != [] {
      var d1 := Apply(d, script[0]);
      var tail := script[1..];
      RunReadsLastWrite(d1, tail);
      LastWritesSplit(script[0], tail, Id(d), LastModifiedDate(d));
      assert [script[0]] + tail == script;
    }
  }

  /** Peeling the first assignment off a script, for the two reference readings. */
  lemma {:induction false} LastWritesSplit<V>(a: Assignment<V>, tail: seq<Assignment<V>>, n: V, t: V)
    ensures LastNumber([a] + tail, n) == LastNumber(tail, if a.WritesNumber() then a.v else n)
    ensures LastStamp([a] + tail, t) == LastStamp(tail, if a.WritesNumber() then t else a.v)
    decreases |tail|
  {
    if tail != [] {
      var init := tail[..|tail| - 1];
      assert ([a] + tail)[..|[a] + tail| - 1] == [a] + init;
      LastWritesSplit(a, init, n, t);
    } else {
      assert ([a] + tail)[..0] == [];
    }
  }
}
