/** The region matcher as it is built: a slice over a backing array, updated in place. */
module RegionMatching {
  import opened Rewriting
  import opened RegionCache

  class RegionMatcher {
    const cacheSize: int
    const rules: seq<Rewrite>

    // The slice `cache`: `len` entries of `data` from `offset` on; its capacity reaches to the
    // end of `data`.
    var data: array<Entry>
    var offset: nat
    var len: nat

    ghost predicate Valid()
      reads this
    {
      offset + len <= data.Length
    }

    ghost function Contents(): (s: seq<Entry>)
      requires Valid()
      reads this, data
      ensures |s| == len
    {
      data[offset..offset + len]
    }

    constructor (cacheSize: int, rules: seq<Rewrite>)
      ensures Valid() && fresh(data) && Contents() == []
      ensures this.cacheSize == cacheSize && this.rules == rules
    {
      this.cacheSize := cacheSize;
      this.rules := rules;
      data := new Entry[0];
      offset, len := 0, 0;
    }

    /** `append`: in place while capacity lasts, otherwise into a new array with `spare` room. */
    method Append(e: Entry, spare: nat)
      requires Valid()
      modifies this`data, this`offset, this`len, data
      ensures Valid() && (data == old(data) || fresh(data))
      ensures Contents() == old(Contents()) + [e]
    {
      if offset + len == data.Length {
        var grown := new Entry[len + 1 + spare](_ => e);
        forall i | 0 <= i < len {
          grown[i] := data[offset + i];
        }
        assert grown[..len] == data[offset..offset + len];
        data, offset := grown, 0;
      }
      data[offset + len] := e;
      len := len + 1;
    }

    method Add(id: int, annotation: string, spare: nat)
      requires Valid()
      modifies this`data, this`offset, this`len, data
      ensures Valid() && (data == old(data) || fresh(data))
      ensures Contents() == Added(old(Contents()), cacheSize, Entry(id, annotation))
    {
      Append(Entry(id, annotation), spare);
      if len > cacheSize {
        offset, len := offset + 1, len - 1;
      }
    }

    method FindIndex(annotation: string) returns (idx: int)
      requires Valid()
      ensures idx == Find(Contents(), annotation)
    {
      ghost var live := Contents();
      for i := 0 to len
        invariant forall j | 0 <= j < i :: live[j].annotation != annotation
      {
        if data[offset + i].annotation == annotation {
          return i;
        }
      }
      return -1;
    }

    /** `append(cache[:idx], cache[idx+1:]...)`: the tail moves down over the deleted entry. */
    method Delete(idx: nat)
      requires Valid() && idx < len
      modifies this`len, data
      ensures Valid()
      ensures Contents() == Without(old(Contents()), idx)
    {
      forall i | idx <= i < len - 1 {
        data[offset + i] := data[offset + i + 1];
      }
      len := len - 1;
    }

    /** The body of `Match`: the first rule that changes the text into a cached annotation. */
    method Lookup(annotation: string) returns (idx: int)
      requires Valid()
      ensures idx == Select(rules, Contents(), annotation, 0)
    {
      for k := 0 to |rules|
        invariant Select(rules, Contents(), annotation, 0) == Select(rules, Contents(), annotation, k)
      {
        var previousAnnotation := rules[k](annotation);
        if previousAnnotation != annotation {
          idx := FindIndex(previousAnnotation);
          if idx >= 0 {
            return;
          }
        }
      }
      return -1;
    }

    /** `Match`, its deferred deletion included. */
    method Match(annotation: string) returns (id: int)
      requires Valid()
      modifies this`len, data
      ensures Valid()
      ensures var i := Select(rules, old(Contents()), annotation, 0);
              if i == -1 then id == -1 && Contents() == old(Contents())
              else id == old(Contents())[i].id && Contents() == Without(old(Contents()), i)
    {
      var idx := Lookup(annotation);
      id := -1;
      if idx >= 0 {
        id := data[offset + idx].id;
        Delete(idx);
      }
    }
  }
}
