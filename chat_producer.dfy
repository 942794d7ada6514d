/**
 * The chat producer's message shaping: an optional `REPLY: <id>` header line at the
 * start of a message names the message it answers and is cut from the text, and each
 * message gets a random 8-digit hex id.
 */
module ChatProducer {
  import opened Wrappers
  import opened Text
  import opened FrontMatter

  const MinIdLength: nat := 4
  const MaxIdLength: nat := 32

  /** `[A-Za-z0-9_-]` */
  predicate IsIdChar(c: char) {
    IsCased(c) || ('0' <= c <= '9') || c == '_' || c == '-'
  }

  predicate AllId(s: string) {
    forall i :: 0 <= i < |s| ==> IsIdChar(s[i])
  }

  /** `REPLY:` in any mix of upper and lower case. */
  predicate IsReplyTag(s: string) {
    |s| == 6 && forall i :: 0 <= i < 6 ==> Lower(s[i]) == "reply:"[i]
  }

  /** The end of the run of id characters that starts at `i`. */
  function IdEnd(s: string, i: nat): (j: nat)
    requires i <= |s|
    ensures i <= j <= |s| && AllId(s[i..j]) && (j == |s| || !IsIdChar(s[j]))
    decreases |s| - i
  {
    if i < |s| && IsIdChar(s[i]) then IdEnd(s, i + 1) else i
  }

  /**
   * A match of `^\s*REPLY:\s*([A-Za-z0-9_-]{4,32})\s*\n` (ignoring case): the tag at
   * `tagStart`, the id in `[idStart, idEnd)`, the match ending at `end`.
   */
  datatype ReplyHeader = ReplyHeader(tagStart: nat, idStart: nat, idEnd: nat, end: nat)

  /** The declarative reading of the pattern: what any match of it looks like. */
  predicate IsReplyHeader(t: string, h: ReplyHeader) {
    && h.tagStart + 6 <= h.idStart <= h.idEnd < h.end <= |t|
    && AllSpace(t[..h.tagStart]) && IsReplyTag(t[h.tagStart..h.tagStart + 6])
    && AllSpace(t[h.tagStart + 6..h.idStart])
    && MinIdLength <= h.idEnd - h.idStart <= MaxIdLength && AllId(t[h.idStart..h.idEnd])
    && AllSpace(t[h.idEnd..h.end]) && t[h.end - 1] == '\n'
  }

  /**
   * The engine's search: white space, the tag, white space, then the whole run of id
   * characters (a shorter id would leave an id character where the pattern needs white
   * space), and the greedy `\s*\n` settling on the last newline of the white space that
   * follows.
   */
  function MatchReply(t: string): (r: Option<ReplyHeader>)
    ensures r.Some? ==> r.value.end <= |t|
  {
    var a := WsEnd(t, 0);
    if a + 6 <= |t| && IsReplyTag(t[a..a + 6]) then
      var b := WsEnd(t, a + 6);
      var c := IdEnd(t, b);
      if MinIdLength <= c - b <= MaxIdLength then
        match LastNewline(t, c, WsEnd(t, c))
        case Some(q) => Some(ReplyHeader(a, b, c, q + 1))
        case None => None
      else None
    else None
  }

  /** A run of id characters ends no earlier than any stretch of them that starts with it. */
  lemma IdEndCovers(s: string, i: nat, j: nat)
    requires i <= j <= |s| && AllId(s[i..j])
    ensures j <= IdEnd(s, i)
    decreases |s| - i
  {
    if i < j {
      assert IsIdChar(s[i..j][0]);
      assert s[i + 1..j] == s[i..j][1..];
      IdEndCovers(s, i + 1, j);
    }
  }

  /** A run of white space that is followed by something else ends where that starts. */
  lemma WsEndAt(t: string, i: nat, j: nat)
    requires i <= j <= |t| && AllSpace(t[i..j]) && (j == |t| || !IsSpace(t[j]))
    ensures WsEnd(t, i) == j
    decreases j - i
  {
    if i < j {
      assert IsSpace(t[i..j][0]);
      assert t[i + 1..j] == t[i..j][1..];
      WsEndAt(t, i + 1, j);
    }
  }

  /** A run of id characters that is followed by something else ends where that starts. */
  lemma IdEndAt(t: string, i: nat, j: nat)
    requires i <= j <= |t| && AllId(t[i..j]) && (j == |t| || !IsIdChar(t[j]))
    ensures IdEnd(t, i) == j
    decreases j - i
  {
    if i < j {
      assert IsIdChar(t[i..j][0]);
      assert t[i + 1..j] == t[i..j][1..];
      IdEndAt(t, i + 1, j);
    }
  }

  /** The tag starts with a letter, and an id with an id character: neither is white space. */
  lemma NotSpace(c: char)
    requires Lower(c) == 'r' || IsIdChar(c)
    ensures !IsSpace(c)
  {
  }

  /** Every header has the tag and id the search finds, and ends no later than its match. */
  lemma HeaderIsFound(t: string, h: ReplyHeader)
    requires IsReplyHeader(t, h)
    ensures MatchReply(t).Some?
    ensures var m := MatchReply(t).value;
      h.tagStart == m.tagStart && h.idStart == m.idStart && h.idEnd == m.idEnd && h.end <= m.end
  {
    assert t[..h.tagStart] == t[0..h.tagStart];
    NotSpace(t[h.tagStart..h.tagStart + 6][0]);
    WsEndAt(t, 0, h.tagStart);
    NotSpace(t[h.idStart..h.idEnd][0]);
    WsEndAt(t, h.tagStart + 6, h.idStart);
    assert IsSpace(t[h.idEnd..h.end][0]);
    IdEndAt(t, h.idStart, h.idEnd);
    WsEndCovers(t, h.idEnd, h.end);
    assert t[h.end - 1] == '\n' && h.idEnd <= h.end - 1 < WsEnd(t, h.idEnd);
  }

  /** What the search finds is a header. */
  lemma FoundIsHeader(t: string)
    ensures MatchReply(t).Some? ==> IsReplyHeader(t, MatchReply(t).value)
  {
    var m := MatchReply(t);
    if m.Some? {
      var h := m.value;
      AllSpaceShorter(t, h.idEnd, h.end, WsEnd(t, h.idEnd));
      assert t[..h.tagStart] == t[0..h.tagStart];
    }
  }

  /**
   * The search is the pattern: it fails exactly when the text has no header, and
   * otherwise finds the only tag and id a header can have, with the longest match.
   */
  lemma MatchReplySpec(t: string)
    ensures MatchReply(t).Some? ==> IsReplyHeader(t, MatchReply(t).value)
    ensures MatchReply(t).Some? ==> forall h :: IsReplyHeader(t, h) ==>
      h.tagStart == MatchReply(t).value.tagStart && h.idStart == MatchReply(t).value.idStart &&
      h.idEnd == MatchReply(t).value.idEnd && h.end <= MatchReply(t).value.end
    ensures MatchReply(t).None? ==> forall h :: !IsReplyHeader(t, h)
  {
    FoundIsHeader(t);
    forall h | IsReplyHeader(t, h)
      ensures MatchReply(t).Some? && h.tagStart == MatchReply(t).value.tagStart
      ensures h.idStart == MatchReply(t).value.idStart && h.idEnd == MatchReply(t).value.idEnd
      ensures h.end <= MatchReply(t).value.end
    {
      HeaderIsFound(t, h);
    }
  }

  /**
   * `_parse_reply_header(text)`: without a header, no reply and the text unchanged;
   * with one, the id it names and the text after it, so that the header followed by the
   * cleaned text is the input.
   */
  function ParseReplyHeader(t: string): (r: (Option<string>, string))
    ensures r.0.None? <==> forall h :: !IsReplyHeader(t, h)
    ensures r.0.None? ==> r.1 == t
    ensures r.0.Some? ==> MinIdLength <= |r.0.value| <= MaxIdLength && AllId(r.0.value)
    ensures r.0.Some? ==> exists h :: && IsReplyHeader(t, h) && r.0.value == t[h.idStart..h.idEnd]
                                     && t == t[..h.end] + r.1
                                     && forall h' :: IsReplyHeader(t, h') ==> h'.end <= h.end
  {
    MatchReplySpec(t);
    match MatchReply(t)
    case None => (None, t)
    case Some(h) =>
      assert t == t[..h.end] + t[h.end..];
      (Some(t[h.idStart..h.idEnd]), t[h.end..])
  }

  /** `_parse_reply_header` on a text that may be `None`, which is matched as `""`. */
  function ParseOptionalText(text: Option<string>): (r: (Option<string>, Option<string>))
    ensures text.None? ==> r == (None, None)
    ensures text.Some? ==> r == (ParseReplyHeader(text.value).0, Some(ParseReplyHeader(text.value).1))
  {
    var (replyTo, cleaned) := ParseReplyHeader(text.GetOr(""));
    if replyTo.None? then (None, text) else (replyTo, Some(cleaned))
  }

  /**
   * An id longer than 32 characters is no id at all: the whole header is refused, even
   * though its first 32 characters would do.
   */
  lemma LongIdRefused(pre: string, tag: string, gap: string, id: string, rest: string)
    requires AllSpace(pre) && IsReplyTag(tag) && AllSpace(gap) && AllId(id) && |id| > MaxIdLength
    ensures ParseReplyHeader(pre + tag + gap + id + rest) == (None, pre + tag + gap + id + rest)
  {
    var t := pre + tag + gap + id + rest;
    var a, b := |pre|, |pre| + 6 + |gap|;
    assert t[a] == tag[0] && Lower(tag[0]) == 'r';
    assert t[..a] == pre;
    WsEndAt(t, 0, a);
    assert t[a..a + 6] == tag;
    assert t[a + 6..b] == gap;
    assert t[b] == id[0] && IsIdChar(id[0]);
    WsEndAt(t, a + 6, b);
    assert t[b..b + |id|] == id;
    IdEndCovers(t, b, b + |id|);
    MatchReplySpec(t);
  }

  /** A header must end its line: a one-line text never has one. */
  lemma NoNewlineNoHeader(t: string)
    requires '\n' !in t
    ensures ParseReplyHeader(t) == (None, t)
  {
  }

  /** Where each part of a written header sits in the text. */
  lemma HeaderLayout(pre: string, tag: string, gap: string, id: string, sp: string, rest: string)
    requires |tag| == 6
    ensures var t := pre + tag + gap + id + sp + "\n" + rest;
      var a, b := |pre|, |pre| + 6 + |gap|;
      var c, e := b + |id|, b + |id| + |sp| + 1;
      && |t| == e + |rest| && t[..a] == pre && t[a..a + 6] == tag && t[a + 6..b] == gap
      && t[b..c] == id && t[c..e] == sp + "\n" && t[e..] == rest && t[e - 1] == '\n'
  {
  }

  /** The match ends just after the last newline of the white space after the id. */
  lemma MatchEnd(t: string)
    ensures MatchReply(t).Some? ==> var m := MatchReply(t).value;
      m.idEnd <= |t| && LastNewline(t, m.idEnd, WsEnd(t, m.idEnd)).Some?
      && m.end == LastNewline(t, m.idEnd, WsEnd(t, m.idEnd)).value + 1
  {
  }

  /**
   * A header whose white space runs up to the first character that is not white space
   * is the one the parser takes: its id is the reply id and the text after it is kept.
   */
  lemma HeaderParsed(t: string, h: ReplyHeader)
    requires IsReplyHeader(t, h) && (h.end == |t| || !IsSpace(t[h.end]))
    ensures ParseReplyHeader(t) == (Some(t[h.idStart..h.idEnd]), t[h.end..])
  {
    HeaderIsFound(t, h);
    MatchEnd(t);
    WsEndAt(t, h.idEnd, h.end);
    var m := MatchReply(t).value;
    var q := LastNewline(t, h.idEnd, h.end).value;
    assert t[h.end - 1] == '\n';
    assert q == h.end - 1;
    assert m == h;
  }

  /**
   * A header is found wherever one is written: white space, the tag in any case, white
   * space, an id of 4 to 32 id characters, white space ending in a newline; the cleaned
   * text is what follows that white space.
   */
  lemma HeaderRecognised(pre: string, tag: string, gap: string, id: string, sp: string, rest: string)
    requires AllSpace(pre) && IsReplyTag(tag) && AllSpace(gap)
    requires AllId(id) && MinIdLength <= |id| <= MaxIdLength
    requires AllSpace(sp) && (rest == [] || !IsSpace(rest[0]))
    ensures ParseReplyHeader(pre + tag + gap + id + sp + "\n" + rest) == (Some(id), rest)
  {
    var t := pre + tag + gap + id + sp + "\n" + rest;
    var h := WrittenHeader(pre, tag, gap, id, sp, rest);
    HeaderParsed(t, h);
  }

  /** The header as written, with its parts where `HeaderLayout` puts them. */
  lemma WrittenHeader(pre: string, tag: string, gap: string, id: string, sp: string, rest: string)
    returns (h: ReplyHeader)
    requires AllSpace(pre) && IsReplyTag(tag) && AllSpace(gap)
    requires AllId(id) && MinIdLength <= |id| <= MaxIdLength
    requires AllSpace(sp) && (rest == [] || !IsSpace(rest[0]))
    ensures var t := pre + tag + gap + id + sp + "\n" + rest;
      && IsReplyHeader(t, h) && (h.end == |t| || !IsSpace(t[h.end]))
      && t[h.idStart..h.idEnd] == id && t[h.end..] == rest
  {
    var t := pre + tag + gap + id + sp + "\n" + rest;
    var a, b := |pre|, |pre| + 6 + |gap|;
    var c, e := b + |id|, b + |id| + |sp| + 1;
    HeaderLayout(pre, tag, gap, id, sp, rest);
    assert AllSpace(t[c..e]) by {
      assert IsSpace('\n');
    }
    h := ReplyHeader(a, b, c, e);
    assert e == |t| || t[e] == rest[0];
  }

  // ---------------------------------------------------------------------------------
  // Message ids and events

  /** The lower-case hex digit for `d < 16`. */
  function HexDigit(d: nat): (c: char)
    requires d < 16
    ensures IsHexDigit(c)
  {
    "0123456789abcdef"[d]
  }

  predicate IsHexDigit(c: char) {
    ('0' <= c <= '9') || ('a' <= c <= 'f')
  }

  /** The value of a lower-case hex digit. */
  function HexValue(c: char): (d: nat)
    requires IsHexDigit(c)
    ensures d < 16
  {
    if c <= '9' then c as nat - '0' as nat else c as nat - 'a' as nat + 10
  }

  lemma HexValueOfDigit(d: nat)
    requires d < 16
    ensures HexValue(HexDigit(d)) == d
  {
  }

  /** `secrets.token_hex` of the bytes drawn: two lower-case hex digits per byte. */
  function TokenHex(bytes: seq<bv8>): (r: string)
    ensures |r| == 2 * |bytes|
    ensures forall i :: 0 <= i < |r| ==> IsHexDigit(r[i])
  {
    if bytes == [] then ""
    else [HexDigit(bytes[0] as nat / 16), HexDigit(bytes[0] as nat % 16)] + TokenHex(bytes[1..])
  }

  /** Reading the digits back. */
  function FromHex(s: string): seq<bv8>
    requires |s| % 2 == 0 && forall i :: 0 <= i < |s| ==> IsHexDigit(s[i])
  {
    if s == [] then [] else [(HexValue(s[0]) * 16 + HexValue(s[1])) as bv8] + FromHex(s[2..])
  }

  /** One byte's two digits read back. */
  lemma ByteDigits(b: bv8)
    ensures (HexValue(HexDigit(b as nat / 16)) * 16 + HexValue(HexDigit(b as nat % 16))) as bv8 == b
  {
    var n := b as nat;
    HexPairValue(n);
    assert n as bv8 == b;
  }

  /** A number below 256 is its two hex digits' values put together. */
  lemma HexPairValue(n: nat)
    requires n < 256
    ensures HexValue(HexDigit(n / 16)) * 16 + HexValue(HexDigit(n % 16)) == n
  {
    HexValueOfDigit(n / 16);
    HexValueOfDigit(n % 16);
  }

  /** The id determines the bytes: distinct draws give distinct ids. */
  lemma {:induction false} TokenHexRoundTrip(bytes: seq<bv8>)
    ensures FromHex(TokenHex(bytes)) == bytes
  {
    if bytes != [] {
      ByteDigits(bytes[0]);
      assert TokenHex(bytes)[2..] == TokenHex(bytes[1..]);
      TokenHexRoundTrip(bytes[1..]);
    }
  }

  /** A `chat_message` event. */
  datatype ChatMessage = ChatMessage(
    kind: string,
    channel: string,
    sender: string,
    text: string,
    timestamp: string,
    id: string,
    replyTo: Option<string>)

  /**
   * `build_chat_message`, with the clock reading `timestamp` and the 4 random bytes
   * `draw` as parameters: the event copies channel and sender, carries the text without
   * its reply header, the id the header named, and an id of 8 lower-case hex digits.
   */
  function BuildChatMessage(channel: string, sender: string, text: string, timestamp: string, draw: seq<bv8>)
    : (m: ChatMessage)
    requires |draw| == 4
    ensures m.kind == "chat_message" && m.channel == channel && m.sender == sender && m.timestamp == timestamp
    ensures (m.replyTo, m.text) == ParseReplyHeader(text) && m.id == TokenHex(draw)
    ensures |m.id| == 8 && forall i :: 0 <= i < 8 ==> IsHexDigit(m.id[i])
    ensures m.replyTo.None? ==> m.text == text
    ensures m.replyTo.Some? ==> |m.text| < |text| && text == text[..|text| - |m.text|] + m.text
  {
    var (replyTo, cleaned) := ParseReplyHeader(text);
    ChatMessage("chat_message", channel, sender, cleaned, timestamp, TokenHex(draw), replyTo)
  }
}
