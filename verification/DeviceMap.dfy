/** Looking up an address in the sorted address dictionary on the device (include/utils.h). */
module DeviceMap {
  import opened Ranges

  /** Binary search for the first of `len` entries that starts after `key`. */
  method MapUpperBound(entries: array<Range>, key: nat, len: nat) returns (low: nat)
    requires len <= entries.Length && StartSorted(entries[..len])
    ensures low == UpperBound(entries[..len], key)
  {
    low := 0;
    var high := len;
    while low < high
      invariant low <= high <= len
      invariant low > 0 ==> entries[low - 1].start <= key
      invariant high < len ==> entries[high].start > key
    {
      var mid := (high - low) / 2 + low;
      if entries[mid].start <= key {
        low := mid + 1;
      } else {
        high := mid;
      }
    }
    UpperBoundIs(entries[..len], key, low);
  }

  /** The entry with the largest start at or below `key`, or `len` if every entry starts after it. */
  method MapPrev(entries: array<Range>, key: nat, len: nat) returns (pos: nat)
    requires len <= entries.Length && StartSorted(entries[..len])
    ensures pos <= len && (pos == len <==> forall i | 0 <= i < len :: entries[i].start > key)
    ensures pos < len ==> entries[pos].start <= key
    ensures pos < len ==> forall i | 0 <= i < len && entries[i].start <= key :: entries[i].start <= entries[pos].start
    ensures Disjoint(entries[..len]) && Covers(entries[..len], key) ==> pos < len && entries[pos].Contains(key)
  {
    pos := MapUpperBound(entries, key, len);
    ghost var s := entries[..len];
    assert forall i | 0 <= i < len :: s[i] == entries[i];
    assert forall i, j | 0 <= i < j < len :: s[i].start < s[j].start;
    if pos != 0 {
      pos := pos - 1;
    } else {
      pos := len;
    }
  }
}
