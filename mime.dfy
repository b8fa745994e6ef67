/**
 * MIME encoded words in mail headers (RFC 2047): `=?charset?encoding?text?=`.
 * The charset name is lower-cased and mapped through a small alias table (the
 * Japanese Shift_JIS names all become `shift_jis`); the "Q" encoding of section 4.2
 * of RFC 2047 is turned into bytes here, the "B" encoding is base64. Turning bytes
 * into text in a charset, and base64 into bytes, are library calls: they are
 * parameters of the model.
 */
module Mime {
  import opened Wrappers
  import opened Strings

  type Byte = b: int | 0 <= b < 256

  /** The two library conversions: `iconv.decode(bytes, charset)`, None when it throws,
    * and `Buffer.from(text, 'base64')`. */
  datatype Codec = Codec(decode: (seq<Byte>, string) -> Option<string>, base64: string -> seq<Byte>)

  // ---------------------------------------------------------------------
  // charsets
  // ---------------------------------------------------------------------

  const ShiftJis: string := "shift_jis"

  /** The alias table, on a lower-cased name. */
  function CharsetAlias(name: string): Option<string>
  {
    if name == "utf-8" then Some("utf-8")
    else if name == "us-ascii" then Some("us-ascii")
    else if name == "iso-2022-jp" then Some("iso-2022-jp")
    else if name == "shift_jis" || name == "shift-jis" || name == "windows-31j" || name == "cp932" || name == "sjis"
    then Some(ShiftJis)
    else if name == "euc-jp" then Some("euc-jp")
    else None
  }

  /** The supported charset a raw name stands for, whatever its case. */
  function NormalizeCharset(raw: string): Option<string>
  {
    CharsetAlias(Lower(raw))
  }

  // ---------------------------------------------------------------------
  // the "Q" encoding
  // ---------------------------------------------------------------------

  predicate IsHexDigit(c: char)
  {
    '0' <= c <= '9' || 'a' <= c <= 'f' || 'A' <= c <= 'F'
  }

  function HexValue(c: char): (v: nat)
    requires IsHexDigit(c)
    ensures v < 16
  {
    if '0' <= c <= '9' then c as int - '0' as int
    else if 'a' <= c <= 'f' then c as int - 'a' as int + 10
    else c as int - 'A' as int + 10
  }

  /** The bytes `Buffer.from` keeps of one character: each UTF-16 code unit (two for a
    * character outside the Basic Multilingual Plane) truncated to its low eight bits. */
  function UnitBytes(c: char): (bs: seq<Byte>)
    ensures 1 <= |bs| <= 2
  {
    var n := c as int;
    if n < 0x10000 then [n % 256]
    else
      var v := n - 0x10000;
      [(0xD800 + v / 0x400) % 256, (0xDC00 + v % 0x400) % 256]
  }

  /** Whether an `=` at the head of `t` is followed by two hex digits. */
  predicate HexEscape(t: string)
  {
    |t| >= 3 && t[0] == '=' && IsHexDigit(t[1]) && IsHexDigit(t[2])
  }

  /** The bytes a "Q"-encoded text stands for: `=HH` is the byte 0xHH, `_` is a space,
    * and every other character (an `=` without two hex digits too) is its code units. */
  function QBytes(t: string): seq<Byte>
  {
    if t == [] then []
    else if HexEscape(t) then [16 * HexValue(t[1]) + HexValue(t[2])] + QBytes(t[3..])
    else if t[0] == '_' then [32] + QBytes(t[1..])
    else UnitBytes(t[0]) + QBytes(t[1..])
  }

  /** The "Q" loop of `decodeWord`: one step per escape or character. */
  method DecodeQ(text: string) returns (bytes: seq<Byte>)
    ensures bytes == QBytes(text)
  {
    bytes := [];
    var i := 0;
    while i < |text|
      invariant i <= |text|
      invariant bytes + QBytes(text[i..]) == QBytes(text)
      decreases |text| - i
    {
      if text[i] == '=' && i + 3 <= |text| && IsHexDigit(text[i + 1]) && IsHexDigit(text[i + 2]) {
        var b := [16 * HexValue(text[i + 1]) + HexValue(text[i + 2])];
        QStepEscape(text, i);
        Regroup(bytes, b, QBytes(text[i + 3..]));
        bytes := bytes + b;
        i := i + 3;
      } else if text[i] == '_' {
        QStepOne(text, i);
        Regroup(bytes, [32], QBytes(text[i + 1..]));
        bytes := bytes + [32];
        i := i + 1;
      } else {
        var b := UnitBytes(text[i]);
        QStepOne(text, i);
        Regroup(bytes, b, QBytes(text[i + 1..]));
        bytes := bytes + b;
        i := i + 1;
      }
    }
    assert text[i..] == [];
  }

  /** An escape at `i` stands for one byte. */
  lemma QStepEscape(text: string, i: nat)
    requires i + 3 <= |text| && text[i] == '=' && IsHexDigit(text[i + 1]) && IsHexDigit(text[i + 2])
    ensures QBytes(text[i..]) == [16 * HexValue(text[i + 1]) + HexValue(text[i + 2])] + QBytes(text[i + 3..])
  {
    var rest := text[i..];
    assert HexEscape(rest) && rest[3..] == text[i + 3..];
  }

  /** Any other character at `i` stands for a space or its code units. */
  lemma QStepOne(text: string, i: nat)
    requires i < |text| && !(text[i] == '=' && i + 3 <= |text| && IsHexDigit(text[i + 1]) && IsHexDigit(text[i + 2]))
    ensures QBytes(text[i..]) == (if text[i] == '_' then [32] else UnitBytes(text[i])) + QBytes(text[i + 1..])
  {
    var rest := text[i..];
    assert !HexEscape(rest) && rest[1..] == text[i + 1..];
  }

  lemma Regroup(a: seq<Byte>, b: seq<Byte>, c: seq<Byte>)
    ensures a + b + c == a + (b + c)
  {
  }

  // ---------------------------------------------------------------------
  // one encoded word
  // ---------------------------------------------------------------------

  /** What `decodeWord(charset, encoding, text)` returns: the decoded text, or the text as
    * it came for an unsupported charset, an unknown encoding or a failing decode. */
  function WordValue(charsetRaw: string, encodingRaw: string, text: string, codec: Codec): string
  {
    var cs := NormalizeCharset(charsetRaw);
    var enc := Lower(encodingRaw);
    if cs.None? then text
    else if enc == "b" then codec.decode(codec.base64(text), cs.value).UnwrapOr(text)
    else if enc == "q" then codec.decode(QBytes(text), cs.value).UnwrapOr(text)
    else text
  }

  /** `decodeWord`. */
  method DecodeWord(charsetRaw: string, encodingRaw: string, text: string, codec: Codec) returns (r: string)
    ensures r == WordValue(charsetRaw, encodingRaw, text, codec)
  {
    var charset := Lower(charsetRaw);
    var encoding := Lower(encodingRaw);
    var normalized := CharsetAlias(charset);
    if normalized.None? {
      return text;
    }
    if encoding == "b" {
      var decoded := codec.decode(codec.base64(text), normalized.value);
      return decoded.UnwrapOr(text);
    }
    if encoding == "q" {
      var bytes := DecodeQ(text);
      var decoded := codec.decode(bytes, normalized.value);
      return decoded.UnwrapOr(text);
    }
    return text;
  }

  // ---------------------------------------------------------------------
  // decodeMimeWords
  // ---------------------------------------------------------------------

  /** The length of the run of characters other than `?` from `p` on. */
  function NonQuestionRun(s: string, p: nat): (n: nat)
    requires p <= |s|
    ensures p + n <= |s|
    ensures forall k :: p <= k < p + n ==> s[k] != '?'
    ensures p + n == |s| || s[p + n] == '?'
    decreases |s| - p
  {
    if p == |s| || s[p] == '?' then 0 else 1 + NonQuestionRun(s, p + 1)
  }

  /** An encoded word found at a position: its three parts and where it ends. */
  datatype Word = Word(charset: string, encoding: string, text: string, end: nat)

  /** A match of `=\?([^?]+)\?([bqBQ])\?([^?]+)\?=` at `p`. The runs of `[^?]+` are
    * greedy and must be followed by `?`, so there is at most one way to match. */
  function WordAt(s: string, p: nat): (w: Option<Word>)
    requires p <= |s|
    ensures w.Some? ==> p < w.value.end <= |s|
  {
    if p + 2 > |s| || s[p] != '=' || s[p + 1] != '?' then None
    else
      var c := NonQuestionRun(s, p + 2);
      var e := p + 2 + c;
      if c == 0 || e + 3 > |s| || s[e + 1] !in "bqBQ" || s[e + 2] != '?' then None
      else
        var t := NonQuestionRun(s, e + 3);
        var f := e + 3 + t;
        if t == 0 || f + 2 > |s| || s[f + 1] != '=' then None
        else Some(Word(s[p + 2..e], s[e + 1..e + 2], s[e + 3..f], f + 2))
  }

  /** The global replace from position `p` on: each encoded word, scanning left to right,
    * is replaced by its value, and every other character is kept. */
  function ReplaceWords(s: string, p: nat, codec: Codec): string
    requires p <= |s|
    decreases |s| - p
  {
    if p == |s| then ""
    else
      match WordAt(s, p)
      case Some(w) => WordValue(w.charset, w.encoding, w.text, codec) + ReplaceWords(s, w.end, codec)
      case None => [s[p]] + ReplaceWords(s, p + 1, codec)
  }

  /** `decodeMimeWords(value)`: a missing value is the empty text. */
  function DecodeMimeWords(value: Option<string>, codec: Codec): string
  {
    ReplaceWords(value.UnwrapOr(""), 0, codec)
  }

  // ---------------------------------------------------------------------
  // properties
  // ---------------------------------------------------------------------

  /** Every Shift_JIS alias, in any case, stands for `shift_jis`. */
  lemma ShiftJisAliases(raw: string)
    requires Lower(raw) in ["shift_jis", "shift-jis", "windows-31j", "cp932", "sjis"]
    ensures NormalizeCharset(raw) == Some(ShiftJis)
  {
  }

  /** The charset name is compared without regard to case. */
  lemma CharsetIgnoresCase(raw: string)
    ensures NormalizeCharset(Lower(raw)) == NormalizeCharset(raw)
  {
    LowerIdempotent(raw);
  }

  /** A word in a charset outside the table comes back as it was. */
  lemma UnsupportedCharsetIsRaw(charsetRaw: string, encodingRaw: string, text: string, codec: Codec)
    requires NormalizeCharset(charsetRaw).None?
    ensures WordValue(charsetRaw, encodingRaw, text, codec) == text
  {
  }

  function HexDigitChar(d: nat): (c: char)
    requires d < 16
    ensures IsHexDigit(c) && HexValue(c) == d
  {
    if d < 10 then ('0' as int + d) as char else ('A' as int + d - 10) as char
  }

  /** Writing every byte as `=HH`: the "Q" form that escapes everything. */
  function QEscapeAll(bs: seq<Byte>): (t: string)
    ensures |t| == 3 * |bs|
  {
    if bs == [] then ""
    else ['=', HexDigitChar(bs[0] / 16), HexDigitChar(bs[0] % 16)] + QEscapeAll(bs[1..])
  }

  /** Decoding undoes the escaping of every byte. */
  lemma {:induction false} QRoundTrip(bs: seq<Byte>)
    ensures QBytes(QEscapeAll(bs)) == bs
  {
    if bs != [] {
      var t := QEscapeAll(bs);
      assert HexEscape(t);
      assert t[3..] == QEscapeAll(bs[1..]);
      QRoundTrip(bs[1..]);
      assert [bs[0]] + bs[1..] == bs;
    }
  }

  /** A character other than `=` and `_` in the range of one byte stands for itself. */
  predicate PlainByteChar(c: char)
  {
    c != '=' && c != '_' && (c as int) < 256
  }

  /** Text of plain one-byte characters decodes to their codes. */
  lemma {:induction false} QPlainText(t: string)
    requires forall k :: 0 <= k < |t| ==> PlainByteChar(t[k])
    ensures |QBytes(t)| == |t|
    ensures forall k :: 0 <= k < |t| ==> QBytes(t)[k] == t[k] as int
  {
    if t != [] {
      QPlainText(t[1..]);
      assert QBytes(t) == [t[0] as int] + QBytes(t[1..]);
    }
  }

  lemma UnitOfEquals()
    ensures UnitBytes('=') == ['=' as int]
  {
  }

  /** An `=` that two hex digits do not follow is kept as the byte of `=`. */
  lemma QLiteralEquals(rest: string)
    requires !(|rest| >= 2 && IsHexDigit(rest[0]) && IsHexDigit(rest[1]))
    ensures QBytes("=" + rest) == ['=' as int] + QBytes(rest)
  {
    var t := "=" + rest;
    assert t[0] == '=' && t[1..] == rest;
    assert !HexEscape(t) by {
      if |t| >= 3 {
        assert t[1] == rest[0] && t[2] == rest[1];
      }
    }
    UnitOfEquals();
    assert QBytes(t) == UnitBytes(t[0]) + QBytes(t[1..]);
  }

  /** `_` is a space. */
  lemma QUnderscore(rest: string)
    ensures QBytes("_" + rest) == [32] + QBytes(rest)
  {
    var t := "_" + rest;
    assert t[0] == '_' && t[1..] == rest;
  }

  /** Text without `=?` holds no encoded word, so it is left exactly as it is. */
  lemma {:induction false} PlainTextUntouched(s: string, p: nat, codec: Codec)
    requires p <= |s|
    requires forall k :: p <= k < |s| - 1 ==> !(s[k] == '=' && s[k + 1] == '?')
    ensures ReplaceWords(s, p, codec) == s[p..]
    decreases |s| - p
  {
    if p < |s| {
      assert WordAt(s, p).None?;
      PlainTextUntouched(s, p + 1, codec);
      assert s[p..] == [s[p]] + s[p + 1..];
    }
  }

  lemma NoWordsUnchanged(s: string, codec: Codec)
    requires forall k :: 0 <= k < |s| - 1 ==> !(s[k] == '=' && s[k + 1] == '?')
    ensures DecodeMimeWords(Some(s), codec) == s
    ensures DecodeMimeWords(None, codec) == ""
  {
    PlainTextUntouched(s, 0, codec);
  }

  /** `s` is laid out as one encoded word: `=?`, a charset of `c` characters, `?`, the
    * encoding letter, `?`, a text of `t` characters, `?=`. */
  predicate WordLayout(s: string, c: nat, t: nat)
  {
    2 + c + 3 + t + 2 == |s| && c > 0 && t > 0
    && s[0] == '=' && s[1] == '?'
    && (forall k :: 2 <= k < 2 + c ==> s[k] != '?')
    && s[2 + c] == '?' && s[3 + c] in "bqBQ" && s[4 + c] == '?'
    && (forall k :: 5 + c <= k < 5 + c + t ==> s[k] != '?')
    && s[5 + c + t] == '?' && s[6 + c + t] == '='
  }

  /** The match at the head of a text laid out as an encoded word. */
  lemma WordAtParts(s: string, c: nat, t: nat)
    requires WordLayout(s, c, t)
    ensures WordAt(s, 0) == Some(Word(s[2..2 + c], s[3 + c..4 + c], s[5 + c..5 + c + t], |s|))
  {
    NonQuestionRunIs(s, 2, c);
    NonQuestionRunIs(s, 5 + c, t);
  }

  /** A header that is one encoded word decodes to that word's value. */
  lemma OneWord(s: string, c: nat, t: nat, codec: Codec)
    requires WordLayout(s, c, t)
    ensures DecodeMimeWords(Some(s), codec) == WordValue(s[2..2 + c], s[3 + c..4 + c], s[5 + c..5 + c + t], codec)
  {
    WordAtParts(s, c, t);
    assert ReplaceWords(s, |s|, codec) == "";
  }

  lemma NonQuestionRunIs(s: string, p: nat, n: nat)
    requires p + n < |s| && s[p + n] == '?'
    requires forall k :: p <= k < p + n ==> s[k] != '?'
    ensures NonQuestionRun(s, p) == n
  {
  }
}
