/**
 * The dry-run confirmation card for an outgoing mail (services/mailDryRunService.ts):
 * the body preview, the field placeholders, the draft saved under a fresh id that
 * both buttons carry, and the one-line log with the body's UTF-8 size.
 */
module MailDryRun {
  import opened Wrappers
  import opened Strings
  import opened Drafts

  const PreviewLimit: nat := 500
  const PreviewNote: string := "\n…（長文のためプレビューを省略）"
  const Unset: string := "_(未設定)_"

  /** `previewBody(body, limit)`: short bodies whole, long ones cut with a note. */
  function PreviewBody(body: string, limit: nat): (r: string)
    ensures |body| <= limit ==> r == body
    ensures |body| > limit ==> r == body[..limit] + PreviewNote
    ensures StartsWith(r, Take(body, limit))
  {
    if |body| <= limit then body else Take(body, limit) + PreviewNote
  }

  /** A preview never exceeds the limit by more than the note, and what it shows of
    * the body is exactly the body's first `limit` characters. */
  lemma PreviewBounded(body: string, limit: nat)
    ensures |PreviewBody(body, limit)| <= limit + |PreviewNote|
    ensures |body| > limit ==> PreviewBody(body, limit)[..limit] == body[..limit]
    ensures PreviewBody(PreviewBody(body, limit), limit + |PreviewNote|) == PreviewBody(body, limit)
  {
    if |body| > limit {
      assert PreviewBody(body, limit)[..limit] == body[..limit];
    }
  }

  /** `safeField(v)`: the trimmed value, or the placeholder when nothing but white space is set. */
  function SafeField(v: Option<string>): (r: string)
    ensures v.None? || AllSpace(v.value) ==> r == Unset
    ensures v.Some? && !AllSpace(v.value) ==> r == Trim(v.value) && r != []
  {
    var s := Trim(if v.Some? then v.value else "");
    if s != [] then s else Unset
  }

  /** A shown field has no surrounding white space, and showing it again changes nothing. */
  lemma SafeFieldStable(v: Option<string>)
    ensures SafeField(Some(SafeField(v))) == SafeField(v)
  {
    ShownIsTrimmed(v);
    SafeFieldOfTrimmed(SafeField(v));
  }

  lemma ShownIsTrimmed(v: Option<string>)
    ensures SafeField(v) != [] && Trim(SafeField(v)) == SafeField(v)
  {
    if v.Some? && !AllSpace(v.value) {
      ShownValueTrimmed(v.value);
    } else {
      assert SafeField(v) == Unset;
      UnsetTrimmed();
    }
  }

  lemma ShownValueTrimmed(s: string)
    requires !AllSpace(s)
    ensures SafeField(Some(s)) == Trim(s) && Trim(s) != [] && Trim(Trim(s)) == Trim(s)
  {
    TrimIdempotent(s);
  }

  lemma SafeFieldOfTrimmed(s: string)
    requires s != [] && Trim(s) == s
    ensures SafeField(Some(s)) == s
  {
  }

  lemma UnsetTrimmed()
    ensures Trim(Unset) == Unset
  {
    assert !IsSpace(Unset[0]);
    assert !IsSpace(Unset[|Unset| - 1]);
    TrimKeepsTrimmed(Unset);
  }

  /** Bytes of one Unicode scalar value in UTF-8. */
  function Utf8Width(c: char): (n: nat)
    ensures 1 <= n <= 4
  {
    if c as int < 0x80 then 1
    else if c as int < 0x800 then 2
    else if c as int < 0x10000 then 3
    else 4
  }

  /** `Buffer.byteLength(s, 'utf8')`. */
  function Utf8Length(s: string): (n: nat)
    ensures |s| <= n <= 4 * |s|
  {
    if s == [] then 0 else Utf8Length(s[..|s| - 1]) + Utf8Width(s[|s| - 1])
  }

  /** Plain ASCII text takes one byte per character. */
  lemma {:induction false} AsciiUtf8Length(s: string)
    requires forall i :: 0 <= i < |s| ==> s[i] as int < 0x80
    ensures Utf8Length(s) == |s|
  {
    if s != [] {
      var init := s[..|s| - 1];
      assert forall i :: 0 <= i < |init| ==> init[i] == s[i];
      AsciiUtf8Length(init);
    }
  }

  /** The size of joined text is the sum of the sizes. */
  lemma {:induction false} Utf8LengthAppend(a: string, b: string)
    ensures Utf8Length(a + b) == Utf8Length(a) + Utf8Length(b)
    decreases |b|
  {
    if b != [] {
      var b' := b[..|b| - 1];
      assert (a + b)[..|a + b| - 1] == a + b';
      assert (a + b)[|a + b| - 1] == b[|b| - 1];
      Utf8LengthAppend(a, b');
    } else {
      assert a + b == a;
    }
  }

  /** What the dry-run card shows and what its two buttons carry. */
  datatype DryRunCard = DryRunCard(
    to: string, cc: string, bcc: string, subject: string, preview: string,
    okDraftId: string, cancelDraftId: string)

  function Card(d: DraftData, draftId: string): (c: DryRunCard)
    ensures c.okDraftId == draftId && c.cancelDraftId == draftId
    ensures c.preview == PreviewBody(d.body, PreviewLimit)
  {
    DryRunCard(SafeField(d.to), SafeField(d.cc), SafeField(d.bcc), SafeField(d.subject),
               PreviewBody(d.body, PreviewLimit), draftId, draftId)
  }

  /** `promptMailDryRun`: the draft is saved under the fresh id before the card is shown,
    * and both buttons name that id, so either press finds this very draft. */
  method PromptMailDryRun(store: DraftStore, user: string, d: DraftData, freshId: string)
    returns (draftId: string, card: DryRunCard)
    modifies store
    ensures draftId == freshId
    ensures store.drafts == old(store.drafts)[user := (if user in old(store.drafts) then old(store.drafts)[user] else map[])[freshId := d]]
    ensures card == Card(d, draftId)
    ensures store.GetDrafts(user).Some? && card.okDraftId in store.GetDrafts(user).value
    ensures store.GetDrafts(user).value[card.okDraftId] == d
    ensures store.GetDrafts(user).value[card.cancelDraftId] == d
  {
    draftId := freshId;
    store.SaveDraft(user, draftId, d);
    card := Card(d, draftId);
  }

  /** The fields of the `[mail.send] dryrun` log line. */
  datatype DryRunLog = DryRunLog(to: string, subject: string, bytes: nat)

  /** `logDryRun(draft)`. */
  function LogDryRun(d: DraftData): (l: DryRunLog)
    ensures l.bytes >= |d.body|
    ensures l.to == d.to.UnwrapOr("") && l.subject == d.subject.UnwrapOr("")
  {
    DryRunLog(d.to.UnwrapOr(""), d.subject.UnwrapOr(""), Utf8Length(d.body))
  }
}
