// The roll history kept in the browser's local storage: a bounded list of
// past rolls, newest first. The stored text is modelled by what reading it
// back yields (a list of entries, or something unreadable); JSON encoding
// itself is not modelled.

module Storage {
  import opened Wrappers

  /** `MAX_HISTORY`: the most rolls the history keeps. */
  const MaxHistory := 20

  /** The most outcomes kept with one roll. */
  const MaxValues := 10000

  /** One remembered roll: the fields the caller passed, plus the `id` and
      `timestamp` that saving adds. `values` may be absent. */
  datatype Entry = Entry(expr: string, result: real, advantage: int, times: int,
                         kd: Option<real>, values: Option<seq<real>>,
                         id: int, timestamp: string)

  /** What is under the storage key: text that parses to a list of entries,
      or text that does not parse. */
  datatype Stored = Rolls(entries: seq<Entry>) | Unreadable

  /** `getHistory`: the stored list, or `[]` when nothing is stored or the
      stored text cannot be read. */
  function Read(slot: Option<Stored>): (history: seq<Entry>)
    ensures slot.None? || slot.value.Unreadable? ==> history == []
    ensures slot.Some? && slot.value.Rolls? ==> history == slot.value.entries
  {
    match slot
    case None => []
    case Some(Unreadable) => []
    case Some(Rolls(entries)) => entries
  }

  /** `values.slice(0, 10000)` when there are more than 10 000 outcomes:
      the first 10 000 are kept, in order; absent values stay absent. */
  function Truncated(values: Option<seq<real>>): (r: Option<seq<real>>)
    ensures r.Some? <==> values.Some?
    ensures r.Some? ==> |r.value| <= MaxValues && |r.value| <= |values.value| && r.value == values.value[..|r.value|]
    ensures r.Some? && |values.value| <= MaxValues ==> r == values
    ensures r.Some? && |values.value| > MaxValues ==> |r.value| == MaxValues
  {
    if values.Some? && |values.value| > MaxValues then Some(values.value[..MaxValues]) else values
  }

  /** Truncating twice is truncating once. */
  lemma TruncatedIdempotent(values: Option<seq<real>>)
    ensures Truncated(Truncated(values)) == Truncated(values)
  {
  }

  /** `splice(MAX_HISTORY)` when the list is longer: its first 20 entries. */
  function Capped(history: seq<Entry>): (r: seq<Entry>)
    ensures |r| <= MaxHistory && |r| <= |history| && r == history[..|r|]
    ensures |r| == if |history| < MaxHistory then |history| else MaxHistory
  {
    if |history| > MaxHistory then history[..MaxHistory] else history
  }

  /** Saving puts the new entry first, followed by the newest 19 of the
      earlier entries in their order; the oldest ones fall off the end. */
  lemma CappedNewestFirst(entry: Entry, history: seq<Entry>)
    ensures var r := Capped([entry] + history);
      r[0] == entry &&
      r[1..] == history[..if |history| < MaxHistory then |history| else MaxHistory - 1]
  {
    var r := Capped([entry] + history);
    var n := if |history| < MaxHistory then |history| else MaxHistory - 1;
    assert |r| == n + 1;
    forall k | 0 <= k < n ensures r[1..][k] == history[k] {
      assert r[1 + k] == ([entry] + history)[1 + k];
    }
  }

  /** `history.filter(item => item.id !== id)`. */
  function Without(history: seq<Entry>, id: int): (r: seq<Entry>)
    ensures |r| <= |history|
    ensures forall k :: 0 <= k < |r| ==> r[k].id != id
    ensures forall e :: e in r <==> e in history && e.id != id
    ensures (forall k :: 0 <= k < |history| ==> history[k].id != id) ==> r == history
  {
    if history == [] then []
    else
      var rest := Without(history[1..], id);
      assert forall e :: e in history <==> e == history[0] || e in history[1..];
      if history[0].id == id then rest else [history[0]] + rest
  }

  /** The filter keeps the relative order of what it keeps: filtering two
      lists one after the other is filtering each. */
  lemma {:induction false} WithoutAppend(a: seq<Entry>, b: seq<Entry>, id: int)
    ensures Without(a + b, id) == Without(a, id) + Without(b, id)
  {
    if a != [] {
      assert (a + b)[1..] == a[1..] + b;
      WithoutAppend(a[1..], b, id);
    } else {
      assert a + b == b;
    }
  }

  /** The caller's roll record: `saveRoll` shortens its `values` in place. */
  class Draft {
    var expr: string
    var result: real
    var advantage: int
    var times: int
    var kd: Option<real>
    var values: Option<seq<real>>

    constructor (expr: string, result: real, advantage: int, times: int, kd: Option<real>, values: Option<seq<real>>)
      ensures this.expr == expr && this.result == result && this.advantage == advantage
      ensures this.times == times && this.kd == kd && this.values == values
    {
      this.expr := expr;
      this.result := result;
      this.advantage := advantage;
      this.times := times;
      this.kd := kd;
      this.values := values;
    }

    /** `{...entry, id, timestamp}`: a copy of the record's fields with the
        new id and time. */
    function Saved(id: int, timestamp: string): (e: Entry)
      reads this
      ensures e.id == id && e.timestamp == timestamp && e.values == values
      ensures e.expr == expr && e.result == result && e.advantage == advantage
      ensures e.times == times && e.kd == kd
    {
      Entry(expr, result, advantage, times, kd, values, id, timestamp)
    }
  }

  /** The local storage slot under the history's key. */
  class HistoryStore {
    var slot: Option<Stored>

    /** The history never holds more than 20 rolls. */
    ghost predicate Valid()
      reads this
    {
      |Read(slot)| <= MaxHistory
    }

    constructor ()
      ensures Valid() && slot == None
    {
      slot := None;
    }

    /** `getHistory`. */
    function History(): (history: seq<Entry>)
      reads this
      ensures history == Read(slot)
      ensures Valid() ==> |history| <= MaxHistory
    {
      Read(slot)
    }

    /** `saveRoll(entry)`: the caller's `values` are first cut to 10 000 in
        place; then the entry, stamped with `id` and `timestamp`, is put in
        front of the earlier history, and only the first 20 are stored. */
    method SaveRoll(entry: Draft, id: int, timestamp: string)
      modifies this, entry
      ensures entry.values == Truncated(old(entry.values))
      ensures unchanged(entry`expr, entry`result, entry`advantage, entry`times, entry`kd)
      ensures slot == Some(Rolls(Capped([entry.Saved(id, timestamp)] + old(History()))))
      ensures Valid()
    {
      var history := History();
      if entry.values.Some? && |entry.values.value| > MaxValues {
        entry.values := Some(entry.values.value[..MaxValues]);
      }
      history := [entry.Saved(id, timestamp)] + history;
      if |history| > MaxHistory {
        history := history[..MaxHistory];
      }
      slot := Some(Rolls(history));
    }

    /** `removeFromHistory(id)`: the entries with that id are gone and the
        rest are stored in their order. */
    method Remove(id: int)
      modifies this
      ensures slot == Some(Rolls(Without(old(History()), id)))
      ensures old(Valid()) ==> Valid()
    {
      var history := History();
      slot := Some(Rolls(Without(history, id)));
    }

    /** `clearHistory`: the key is removed, so the history reads back empty. */
    method Clear()
      modifies this
      ensures slot == None && History() == [] && Valid()
    {
      slot := None;
    }

    /** `importHistory(jsonStr)`, with `JSON.parse` already applied: text
        that does not parse, or parses to something other than a list, is
        refused and nothing is stored; a list has its first 20 entries
        stored. */
    method Import(parsed: Parsed) returns (ok: bool)
      modifies this
      ensures ok <==> parsed.List?
      ensures ok ==> slot == Some(Rolls(Capped(parsed.items))) && History() == Capped(parsed.items)
      ensures !ok ==> slot == old(slot)
      ensures old(Valid()) ==> Valid()
    {
      if !parsed.List? {
        return false;
      }
      slot := Some(Rolls(Capped(parsed.items)));
      return true;
    }
  }

  /** The result of `JSON.parse` on imported text. */
  datatype Parsed = NotJson | NotAList | List(items: seq<Entry>)
}
