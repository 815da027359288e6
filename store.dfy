/** The in-memory entry store (src/services/petty-cash.service.ts). */
module PettyCashStore {
  import opened Optional
  import opened Sequences
  import opened PettyCashTypes

  /** `entries.findIndex(e => e.id === id)`: the first position holding `id`. */
  function IndexOfId(s: seq<Entry>, id: string): (r: Option<nat>)
    ensures r.Some? ==> r.value < |s| && s[r.value].id == id
    ensures r.Some? ==> forall j :: 0 <= j < r.value ==> s[j].id != id
    ensures r.None? <==> forall j :: 0 <= j < |s| ==> s[j].id != id
  {
    FirstIndex(s, (e: Entry) => e.id == id)
  }

  /** No two stored entries share an id. */
  predicate DistinctIds(s: seq<Entry>) {
    forall i, j :: 0 <= i < j < |s| ==> s[i].id != s[j].id
  }

  /** `entries.filter(e => e.status === status)`. */
  function WithStatus(s: seq<Entry>, status: Status): (r: seq<Entry>)
    ensures forall x :: x in r <==> x in s && x.status == status
  {
    Filter(s, (e: Entry) => e.status == status)
  }

  /** `entries.filter(e => e.requester.id === requesterId)`. */
  function ForRequester(s: seq<Entry>, requesterId: string): (r: seq<Entry>)
    ensures forall x :: x in r <==> x in s && x.requester.id == requesterId
  {
    Filter(s, (e: Entry) => e.requester.id == requesterId)
  }

  /** The status filter keeps exactly the entries with that status, in store order. */
  lemma WithStatusExact(s: seq<Entry>, status: Status)
    ensures |WithStatus(s, status)| == |Matches(s, (e: Entry) => e.status == status)|
    ensures forall k :: 0 <= k < |WithStatus(s, status)| ==>
      WithStatus(s, status)[k] == s[Matches(s, (e: Entry) => e.status == status)[k]]
    ensures forall k :: 0 <= k < |WithStatus(s, status)| ==> WithStatus(s, status)[k].status == status
  {
    FilterSelectsMatches(s, (e: Entry) => e.status == status);
  }

  /** The requester filter keeps exactly that requester's entries, in store order. */
  lemma ForRequesterExact(s: seq<Entry>, requesterId: string)
    ensures |ForRequester(s, requesterId)| == |Matches(s, (e: Entry) => e.requester.id == requesterId)|
    ensures forall k :: 0 <= k < |ForRequester(s, requesterId)| ==>
      ForRequester(s, requesterId)[k] == s[Matches(s, (e: Entry) => e.requester.id == requesterId)[k]]
    ensures forall k :: 0 <= k < |ForRequester(s, requesterId)| ==>
      ForRequester(s, requesterId)[k].requester.id == requesterId
  {
    FilterSelectsMatches(s, (e: Entry) => e.requester.id == requesterId);
  }

  /** With distinct ids, looking up a stored entry's id finds that entry. */
  lemma LookupFindsStored(s: seq<Entry>, k: nat)
    requires DistinctIds(s)
    requires k < |s|
    ensures IndexOfId(s, s[k].id) == Some(k)
  {
  }

  /** Appending an entry with a fresh id keeps ids distinct. */
  lemma AppendKeepsDistinct(s: seq<Entry>, e: Entry)
    requires DistinctIds(s)
    requires forall j :: 0 <= j < |s| ==> s[j].id != e.id
    ensures DistinctIds(s + [e])
  {
  }

  /** Removing one entry keeps ids distinct. */
  lemma RemoveKeepsDistinct(s: seq<Entry>, i: nat)
    requires DistinctIds(s)
    requires i < |s|
    ensures DistinctIds(s[..i] + s[i + 1..])
  {
    var t := s[..i] + s[i + 1..];
    forall a, b | 0 <= a < b < |t| ensures t[a].id != t[b].id {
      var a' := if a < i then a else a + 1;
      var b' := if b < i then b else b + 1;
      assert t[a] == s[a'] && t[b] == s[b'];
    }
  }

  /** Replacing an entry by one with the same id keeps ids distinct. */
  lemma ReplaceKeepsDistinct(s: seq<Entry>, i: nat, e: Entry)
    requires DistinctIds(s)
    requires i < |s| && e.id == s[i].id
    ensures DistinctIds(s[i := e])
  {
  }

  /** The store. The source keeps one private array and hands it out by
      reference; here it is a sequence field that the methods reassign. */
  class PettyCashService {
    var entries: seq<Entry>

    constructor ()
      ensures entries == []
    {
      entries := [];
    }

    /** `createEntry`: the id and both clock readings are supplied by the caller. */
    method CreateEntry(draft: Draft, id: string, createdAt: Time, updatedAt: Time) returns (e: Entry)
      modifies this
      ensures DraftOf(e) == draft && e.id == id
      ensures e.createdAt == createdAt && e.updatedAt == updatedAt
      ensures entries == old(entries) + [e]
      ensures DistinctIds(old(entries)) && (forall j :: 0 <= j < |old(entries)| ==> old(entries)[j].id != id)
              ==> DistinctIds(entries)
    {
      e := FromDraft(draft, id, createdAt, updatedAt);
      entries := entries + [e];
    }

    /** `getEntries`: the stored entries in insertion order. */
    method GetEntries() returns (r: seq<Entry>)
      ensures r == entries
    {
      r := entries;
    }

    /** `getEntryById`: the first entry holding `id`, or None. */
    method GetEntryById(id: string) returns (r: Option<Entry>)
      ensures r.None? <==> forall j :: 0 <= j < |entries| ==> entries[j].id != id
      ensures r.Some? ==> r.value.id == id
      ensures r.Some? ==> exists k :: 0 <= k < |entries| && entries[k] == r.value &&
                                      (forall j :: 0 <= j < k ==> entries[j].id != id)
    {
      var i := IndexOfId(entries, id);
      r := if i.Some? then Some(entries[i.value]) else None;
    }

    /** `updateEntry`: merges `updates` into the first entry holding `id`. */
    method UpdateEntry(id: string, updates: EntryUpdate, now: Time) returns (r: Option<Entry>)
      modifies this
      ensures IndexOfId(old(entries), id).None? ==> r.None? && entries == old(entries)
      ensures IndexOfId(old(entries), id).Some? ==>
        var i := IndexOfId(old(entries), id).value;
        r == Some(Merge(old(entries)[i], updates, now)) && entries == old(entries)[i := r.value]
      ensures DistinctIds(old(entries)) && updates.id.None? ==> DistinctIds(entries)
    {
      var index := IndexOfId(entries, id);
      if index.None? {
        return None;
      }
      var updated := Merge(entries[index.value], updates, now);
      if DistinctIds(entries) && updates.id.None? {
        ReplaceKeepsDistinct(entries, index.value, updated);
      }
      entries := entries[index.value := updated];
      r := Some(updated);
    }

    /** `updateStatus`: an update naming only the status. */
    method UpdateStatus(id: string, status: Status, now: Time) returns (r: Option<Entry>)
      modifies this
      ensures IndexOfId(old(entries), id).None? ==> r.None? && entries == old(entries)
      ensures IndexOfId(old(entries), id).Some? ==>
        var i := IndexOfId(old(entries), id).value;
        r == Some(old(entries)[i].(status := status, updatedAt := now)) && entries == old(entries)[i := r.value]
      ensures DistinctIds(old(entries)) ==> DistinctIds(entries)
    {
      r := UpdateEntry(id, StatusUpdate(status), now);
      if i :| IndexOfId(old(entries), id) == Some(i) {
        MergeStatus(old(entries)[i], status, now);
      }
    }

    /** `deleteEntry`: removes the first entry holding `id`; true iff one was removed. */
    method DeleteEntry(id: string) returns (removed: bool)
      modifies this
      ensures removed <==> IndexOfId(old(entries), id).Some?
      ensures !removed ==> entries == old(entries)
      ensures removed ==>
        var i := IndexOfId(old(entries), id).value;
        entries == old(entries)[..i] + old(entries)[i + 1..]
      ensures DistinctIds(old(entries)) ==> DistinctIds(entries)
    {
      var index := IndexOfId(entries, id);
      if index.None? {
        return false;
      }
      if DistinctIds(entries) {
        RemoveKeepsDistinct(entries, index.value);
      }
      entries := entries[..index.value] + entries[index.value + 1..];
      removed := true;
    }

    /** `getEntriesByStatus`. */
    method GetEntriesByStatus(status: Status) returns (r: seq<Entry>)
      ensures r == WithStatus(entries, status)
    {
      r := WithStatus(entries, status);
    }

    /** `getEntriesByRequester`. */
    method GetEntriesByRequester(requesterId: string) returns (r: seq<Entry>)
      ensures r == ForRequester(entries, requesterId)
    {
      r := ForRequester(entries, requesterId);
    }
  }
}
