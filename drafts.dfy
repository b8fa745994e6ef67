/**
 * Mail drafts and the per-user draft store. The store's own source
 * (`models/draftStore`) is not part of this model: it is taken to be a map
 * from user id to that user's drafts, keyed by draft id, with `saveDraft`,
 * `getDrafts` and `deleteDraft` as map updates and lookups.
 */
module Drafts {
  import opened Wrappers

  datatype DraftData = DraftData(
    body: string,
    subject: Option<string>,
    to: Option<string>,
    cc: Option<string>,
    bcc: Option<string>,
    inReplyToMessageId: Option<string>,
    threadId: Option<string>,
    createdAt: int,
    draftId: Option<string>)

  type UserDrafts = map<string, DraftData>

  /** The store after `deleteDraft(user, draftId)`: the draft leaves that user's drafts, and
    * a user with no saved drafts is left as is. */
  function WithoutDraft(store: map<string, UserDrafts>, user: string, draftId: string): (r: map<string, UserDrafts>)
    ensures r.Keys == store.Keys
    ensures forall u :: u in store && u != user ==> r[u] == store[u]
    ensures user in store ==> r[user].Keys == store[user].Keys - {draftId}
    ensures user in store ==> forall id :: id in r[user] ==> r[user][id] == store[user][id]
  {
    if user in store then store[user := store[user] - {draftId}] else store
  }

  class DraftStore {
    var drafts: map<string, UserDrafts>

    constructor ()
      ensures drafts == map[]
    {
      drafts := map[];
    }

    /** The user's drafts, if the user has saved any. */
    function GetDrafts(user: string): (r: Option<UserDrafts>)
      reads this
      ensures r.Some? <==> user in drafts
      ensures r.Some? ==> r.value == drafts[user]
    {
      if user in drafts then Some(drafts[user]) else None
    }

    method SaveDraft(user: string, draftId: string, d: DraftData)
      modifies this
      ensures drafts == old(drafts)[user := (if user in old(drafts) then old(drafts)[user] else map[])[draftId := d]]
    {
      var mine := if user in drafts then drafts[user] else map[];
      drafts := drafts[user := mine[draftId := d]];
    }

    method DeleteDraft(user: string, draftId: string)
      modifies this
      ensures drafts == WithoutDraft(old(drafts), user, draftId)
    {
      if user in drafts {
        drafts := drafts[user := drafts[user] - {draftId}];
      }
    }
  }
}
