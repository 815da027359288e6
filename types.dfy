/** The records of the petty-cash application (src/types/petty-cash.ts). */
module PettyCashTypes {
  import opened Optional

  /** A clock reading or calendar instant, in milliseconds. */
  type Time = int

  /** The four approval states; any state may be set from any other. */
  datatype Status = Pending | Approved | Rejected | Completed

  datatype ExpenseCategory = ExpenseCategory(id: string, name: string, description: Option<string>)

  datatype Requester = Requester(id: string, name: string, department: string)

  /** One recorded disbursement. `amount` is in minor currency units. */
  datatype Entry = Entry(
    id: string,
    date: Time,
    amount: int,
    description: string,
    category: ExpenseCategory,
    requester: Requester,
    status: Status,
    receiptUrl: Option<string>,
    notes: Option<string>,
    createdAt: Time,
    updatedAt: Time)

  /** An entry as the form submits it: everything but `id` and the two timestamps. */
  datatype Draft = Draft(
    date: Time,
    amount: int,
    description: string,
    category: ExpenseCategory,
    requester: Requester,
    status: Status,
    receiptUrl: Option<string>,
    notes: Option<string>)

  /** A `Partial<PettyCashEntry>`: `None` is a key that is not present. For the
      two optional fields, `Some(None)` is a key present with value `undefined`,
      which the spread copies over the old value. */
  datatype EntryUpdate = EntryUpdate(
    id: Option<string>,
    date: Option<Time>,
    amount: Option<int>,
    description: Option<string>,
    category: Option<ExpenseCategory>,
    requester: Option<Requester>,
    status: Option<Status>,
    receiptUrl: Option<Option<string>>,
    notes: Option<Option<string>>,
    createdAt: Option<Time>,
    updatedAt: Option<Time>)

  const NoChanges := EntryUpdate(None, None, None, None, None, None, None, None, None, None, None)

  /** The update `{ status }` that `updateStatus` passes on. */
  function StatusUpdate(s: Status): EntryUpdate {
    NoChanges.(status := Some(s))
  }

  /** `{ ...draft, id, createdAt, updatedAt }`. */
  function FromDraft(d: Draft, id: string, createdAt: Time, updatedAt: Time): (r: Entry)
    ensures DraftOf(r) == d
    ensures r.id == id && r.createdAt == createdAt && r.updatedAt == updatedAt
  {
    Entry(id, d.date, d.amount, d.description, d.category, d.requester, d.status,
          d.receiptUrl, d.notes, createdAt, updatedAt)
  }

  /** The draft fields of an entry. */
  function DraftOf(e: Entry): Draft {
    Draft(e.date, e.amount, e.description, e.category, e.requester, e.status, e.receiptUrl, e.notes)
  }

  /** `{ ...e, ...u, updatedAt: now }`: each field present in `u` replaces the
      old one, and `updatedAt` is the clock reading whatever `u` says. */
  function Merge(e: Entry, u: EntryUpdate, now: Time): (r: Entry)
    ensures r.updatedAt == now
    ensures u.id.None? ==> r.id == e.id
  {
    Entry(
      u.id.GetOr(e.id),
      u.date.GetOr(e.date),
      u.amount.GetOr(e.amount),
      u.description.GetOr(e.description),
      u.category.GetOr(e.category),
      u.requester.GetOr(e.requester),
      u.status.GetOr(e.status),
      u.receiptUrl.GetOr(e.receiptUrl),
      u.notes.GetOr(e.notes),
      u.createdAt.GetOr(e.createdAt),
      now)
  }

  /** Undoing a creation: an entry is its draft fields plus its id and timestamps. */
  lemma DraftRoundTrip(e: Entry)
    ensures FromDraft(DraftOf(e), e.id, e.createdAt, e.updatedAt) == e
  {
  }

  /** A status update changes the status and the update time, and nothing else. */
  lemma MergeStatus(e: Entry, s: Status, now: Time)
    ensures Merge(e, StatusUpdate(s), now) == e.(status := s, updatedAt := now)
  {
  }

  /** Fields the update does not name keep their old values. */
  lemma MergeKeepsUnnamed(e: Entry, u: EntryUpdate, now: Time)
    ensures u.id.None? ==> Merge(e, u, now).id == e.id
    ensures u.date.None? ==> Merge(e, u, now).date == e.date
    ensures u.amount.None? ==> Merge(e, u, now).amount == e.amount
    ensures u.description.None? ==> Merge(e, u, now).description == e.description
    ensures u.category.None? ==> Merge(e, u, now).category == e.category
    ensures u.requester.None? ==> Merge(e, u, now).requester == e.requester
    ensures u.status.None? ==> Merge(e, u, now).status == e.status
    ensures u.receiptUrl.None? ==> Merge(e, u, now).receiptUrl == e.receiptUrl
    ensures u.notes.None? ==> Merge(e, u, now).notes == e.notes
    ensures u.createdAt.None? ==> Merge(e, u, now).createdAt == e.createdAt
  {
  }

  /** Fields the update names take the update's value, whatever the old one was. */
  lemma MergeTakesNamed(e: Entry, u: EntryUpdate, now: Time)
    ensures u.id.Some? ==> Merge(e, u, now).id == u.id.value
    ensures u.date.Some? ==> Merge(e, u, now).date == u.date.value
    ensures u.amount.Some? ==> Merge(e, u, now).amount == u.amount.value
    ensures u.description.Some? ==> Merge(e, u, now).description == u.description.value
    ensures u.category.Some? ==> Merge(e, u, now).category == u.category.value
    ensures u.requester.Some? ==> Merge(e, u, now).requester == u.requester.value
    ensures u.status.Some? ==> Merge(e, u, now).status == u.status.value
    ensures u.receiptUrl.Some? ==> Merge(e, u, now).receiptUrl == u.receiptUrl.value
    ensures u.notes.Some? ==> Merge(e, u, now).notes == u.notes.value
    ensures u.createdAt.Some? ==> Merge(e, u, now).createdAt == u.createdAt.value
  {
  }
}
