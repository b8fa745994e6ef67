/**
 * The mail-list entities shared by list detection, numbered replies and the
 * opening of one mail (types/email.ts).
 */
module EmailTypes {
  import opened Wrappers
  import opened Strings

  /** One mail of a detected or remembered list; `index` is the number shown to the user. */
  datatype EmailItem = EmailItem(id: string, subject: string, from: string, fromEmail: Option<string>,
                                 index: int, threadId: Option<string>, date: Option<string>)

  /** `email_<time in ms>_<position>`: the id given to a listed mail that came without one. */
  function MadeUpId(nowMs: nat, position: nat): (id: string)
    ensures StartsWith(id, "email_")
  {
    "email_" + NatToString(nowMs) + "_" + NatToString(position)
  }
}
