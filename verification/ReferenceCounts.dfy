/** The gateway's two subscription tables: a count of subscribers per key. */
module ReferenceCounts {

  type Key = string
  type Counts = map<Key, nat>

  /** Counts a new subscriber; true when it is the first one for `key`. */
  function Retain(counts: Counts, key: Key): (Counts, bool) {
    var next := (if key in counts then counts[key] else 0) + 1;
    (counts[key := next], next == 1)
  }

  /** Drops a subscriber; true when it was the last one for `key`.  A missing or zero entry is left alone. */
  function Release(counts: Counts, key: Key): (Counts, bool) {
    if key !in counts || counts[key] == 0 then (counts, false)
    else if counts[key] == 1 then (counts - {key}, true)
    else (counts[key := counts[key] - 1], false)
  }

  ghost predicate NoZeroCounts(counts: Counts) {
    forall key <- counts :: counts[key] > 0
  }
}
