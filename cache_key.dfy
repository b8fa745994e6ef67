/**
 * The cache key of a Gmail list query:
 * `gmail|user=<user>|ws=<workspace>|mailbox=<mailbox>[|qsha=<sha1(query)>]|<page part>`.
 * The SHA-1 digest is a parameter of the model; only its output enters the key,
 * so the query text itself is never stored in the key.
 */
module CacheKey {
  import opened Wrappers
  import opened Strings

  datatype GmailListKeyParams = GmailListKeyParams(
    userId: string,
    workspaceId: Option<string>,
    mailbox: Option<string>,
    query: Option<string>,
    pageToken: Option<string>,
    page: Option<int>)

  /** `p.workspaceId || 'unknown'`. */
  function WorkspacePart(p: GmailListKeyParams): (ws: string)
    ensures Truthy(p.workspaceId) ==> ws == p.workspaceId.value
    ensures !Truthy(p.workspaceId) ==> ws == "unknown"
  {
    if Truthy(p.workspaceId) then p.workspaceId.value else "unknown"
  }

  /** `p.mailbox || (p.query ? 'query' : 'inbox')`. */
  function MailboxPart(p: GmailListKeyParams): (m: string)
    ensures Truthy(p.mailbox) ==> m == p.mailbox.value
    ensures !Truthy(p.mailbox) ==> m == (if Truthy(p.query) then "query" else "inbox")
  {
    if Truthy(p.mailbox) then p.mailbox.value else if Truthy(p.query) then "query" else "inbox"
  }

  /** The last segment: the page token if truthy, else the page number if truthy (non-zero),
    * else page 1. */
  function PagePart(p: GmailListKeyParams): string
  {
    if Truthy(p.pageToken) then "pageToken=" + p.pageToken.value
    else if p.page.Some? && p.page.value != 0 then "page=" + IntToString(p.page.value)
    else "page=1"
  }

  /** The `parts` array before the join. */
  function KeyParts(p: GmailListKeyParams, sha1Hex: string -> string): (parts: seq<string>)
    ensures |parts| == if Truthy(p.query) then 6 else 5
    ensures parts[0] == "gmail" && parts[1] == "user=" + p.userId
    ensures parts[2] == "ws=" + WorkspacePart(p) && parts[3] == "mailbox=" + MailboxPart(p)
    ensures Truthy(p.query) ==> parts[4] == "qsha=" + sha1Hex(p.query.value)
    ensures parts[|parts| - 1] == PagePart(p)
  {
    ["gmail", "user=" + p.userId, "ws=" + WorkspacePart(p), "mailbox=" + MailboxPart(p)]
    + (if Truthy(p.query) then ["qsha=" + sha1Hex(p.query.value)] else [])
    + [PagePart(p)]
  }

  /** `buildGmailListCacheKey`. */
  function BuildGmailListCacheKey(p: GmailListKeyParams, sha1Hex: string -> string): string
  {
    Join(KeyParts(p, sha1Hex), "|")
  }

  /** Every key starts with `gmail|user=<user>|ws=`. */
  lemma KeyPrefix(p: GmailListKeyParams, sha1Hex: string -> string)
    ensures StartsWith(BuildGmailListCacheKey(p, sha1Hex), "gmail|user=" + p.userId + "|ws=")
  {
    var parts := KeyParts(p, sha1Hex);
    var j := Join(parts[3..], "|");
    assert parts[1..][1..] == parts[2..] && parts[2..][1..] == parts[3..];
    assert Join(parts[1..], "|") == ("user=" + p.userId) + "|" + (("ws=" + WorkspacePart(p)) + "|" + j);
    Regroup(p.userId, WorkspacePart(p), j);
  }

  lemma Regroup(u: string, w: string, j: string)
    ensures StartsWith("gmail" + "|" + (("user=" + u) + "|" + (("ws=" + w) + "|" + j)), "gmail|user=" + u + "|ws=")
  {
    var pre := "gmail|user=" + u + "|ws=";
    assert "gmail" + "|" + (("user=" + u) + "|" + (("ws=" + w) + "|" + j)) == pre + (w + "|" + j);
    assert (pre + (w + "|" + j))[..|pre|] == pre;
  }

  /** Pieces of a key that can never contain the separator. */
  predicate SeparatorFree(p: GmailListKeyParams, sha1Hex: string -> string)
  {
    '|' !in p.userId && '|' !in WorkspacePart(p) && '|' !in MailboxPart(p)
    && (Truthy(p.query) ==> '|' !in sha1Hex(p.query.value))
    && (Truthy(p.pageToken) ==> '|' !in p.pageToken.value)
  }

  lemma IntToStringHasNoBar(i: int)
    ensures '|' !in IntToString(i)
  {
    var r := NatToString(if i < 0 then -i else i);
    assert forall k :: 0 <= k < |r| ==> r[k] != '|';
  }

  /** When none of its pieces contains `|`, splitting a key on `|` gives back its parts. */
  lemma KeySplitsIntoParts(p: GmailListKeyParams, sha1Hex: string -> string)
    requires SeparatorFree(p, sha1Hex)
    ensures Split(BuildGmailListCacheKey(p, sha1Hex), '|') == KeyParts(p, sha1Hex)
  {
    var parts := KeyParts(p, sha1Hex);
    if !Truthy(p.pageToken) && p.page.Some? && p.page.value != 0 {
      IntToStringHasNoBar(p.page.value);
    }
    assert forall k :: 0 <= k < |parts| ==> '|' !in parts[k];
    SplitJoin(parts, '|');
  }

  /** Such keys are equal only when their parts are: different users, workspaces, mailboxes,
    * query digests or pages give different keys. */
  lemma KeysDistinguishParts(p: GmailListKeyParams, q: GmailListKeyParams, sha1Hex: string -> string)
    requires SeparatorFree(p, sha1Hex) && SeparatorFree(q, sha1Hex)
    requires BuildGmailListCacheKey(p, sha1Hex) == BuildGmailListCacheKey(q, sha1Hex)
    ensures KeyParts(p, sha1Hex) == KeyParts(q, sha1Hex)
  {
    KeySplitsIntoParts(p, sha1Hex);
    KeySplitsIntoParts(q, sha1Hex);
  }

  /** Only the digest of the query enters the key: two queries with the same digest give the
    * same key, whatever their text. */
  lemma KeyDependsOnQueryOnlyThroughDigest(p: GmailListKeyParams, q1: string, q2: string, sha1Hex: string -> string)
    requires q1 != "" && q2 != "" && sha1Hex(q1) == sha1Hex(q2)
    ensures BuildGmailListCacheKey(p.(query := Some(q1)), sha1Hex)
            == BuildGmailListCacheKey(p.(query := Some(q2)), sha1Hex)
  {
    assert KeyParts(p.(query := Some(q1)), sha1Hex) == KeyParts(p.(query := Some(q2)), sha1Hex);
  }

  /** Without a page token, a missing page, page 0 and page 1 give the same key. */
  lemma DefaultPageIsPageOne(p: GmailListKeyParams, sha1Hex: string -> string)
    requires !Truthy(p.pageToken)
    ensures BuildGmailListCacheKey(p.(page := None), sha1Hex) == BuildGmailListCacheKey(p.(page := Some(1)), sha1Hex)
    ensures BuildGmailListCacheKey(p.(page := Some(0)), sha1Hex) == BuildGmailListCacheKey(p.(page := Some(1)), sha1Hex)
  {
    assert PagePart(p.(page := Some(1))) == "page=1";
    assert KeyParts(p.(page := None), sha1Hex) == KeyParts(p.(page := Some(1)), sha1Hex);
    assert KeyParts(p.(page := Some(0)), sha1Hex) == KeyParts(p.(page := Some(1)), sha1Hex);
  }

  /** A truthy page token wins over any page number. */
  lemma PageTokenWins(p: GmailListKeyParams, n: Option<int>, sha1Hex: string -> string)
    requires Truthy(p.pageToken)
    ensures BuildGmailListCacheKey(p.(page := n), sha1Hex) == BuildGmailListCacheKey(p, sha1Hex)
  {
    assert KeyParts(p.(page := n), sha1Hex) == KeyParts(p, sha1Hex);
  }
}
