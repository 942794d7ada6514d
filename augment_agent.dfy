/**
 * The chat agent's context: how many tokens a text is reckoned to cost, which recent
 * messages fit a token budget, the prompt built from them, and the channel list it
 * reads from its configuration.
 */
module AugmentAgent {
  import opened Wrappers
  import opened Text

  /** Tokens charged per message on top of its sender and text. */
  const MessageOverhead: nat := 30
  /** History entries a prompt shows at most. */
  const PromptHistory: nat := 200
  const DefaultChannels := "general"

  /** `_estimate_tokens`: nothing for an empty text, else a quarter of its length but at least one. */
  function EstimateTokens(text: string): (n: nat)
    ensures text == [] <==> n == 0
    ensures text != [] ==> n >= 1 && (|text| >= 4 ==> n * 4 <= |text| < n * 4 + 4)
    ensures 0 < |text| < 4 ==> n == 1
  {
    if text == [] then 0 else if |text| / 4 < 1 then 1 else |text| / 4
  }

  /** A history row as fetched, newest first; `None` stands for a missing text or sender. */
  datatype Row = Row(sender: Option<string>, text: Option<string>, timestamp: string)

  /** A history entry kept for the prompt, with missing fields as `""`. */
  datatype Entry = Entry(sender: string, text: string, timestamp: string)

  function EntryOf(row: Row): Entry {
    Entry(row.sender.GetOr(""), row.text.GetOr(""), row.timestamp)
  }

  /** What one message is charged: its text, its sender and the fixed overhead. */
  function Cost(row: Row): (c: nat)
    ensures c >= MessageOverhead
  {
    EstimateTokens(row.text.GetOr("")) + EstimateTokens(row.sender.GetOr("")) + MessageOverhead
  }

  /** The total charged for `rows`. */
  function SumCost(rows: seq<Row>): nat {
    if rows == [] then 0 else Cost(rows[0]) + SumCost(rows[1..])
  }

  function Entries(rows: seq<Row>): (es: seq<Entry>)
    ensures |es| == |rows| && forall k :: 0 <= k < |rows| ==> es[k] == EntryOf(rows[k])
  {
    seq(|rows|, k requires 0 <= k < |rows| => EntryOf(rows[k]))
  }

  /** Every message costs at least the overhead, so a longer suffix costs strictly more. */
  lemma {:induction false} SumCostGrows(rows: seq<Row>, i: nat, j: nat)
    requires i <= j <= |rows|
    ensures SumCost(rows[i..]) >= SumCost(rows[j..]) + MessageOverhead * (j - i)
    decreases j - i
  {
    if i < j {
      assert rows[i..][1..] == rows[i + 1..];
      SumCostGrows(rows, i + 1, j);
    }
  }

  /**
   * The selection loop of `_fetch_recent_messages_by_tokens`: going from the oldest row
   * fetched (the last) towards the newest, rows are kept while their total stays within
   * `limit`, stopping at the first that would overflow. The result is the kept rows in
   * their fetched order, which is a suffix of `rows` within the budget, and the longest
   * one: one more row would overflow it.
   */
  method SelectByTokens(rows: seq<Row>, limit: int) returns (out: seq<Entry>)
    ensures |out| <= |rows| && out == Entries(rows[|rows| - |out|..])
    ensures SumCost(rows[|rows| - |out|..]) <= limit || out == []
    ensures |out| < |rows| ==> SumCost(rows[|rows| - |out| - 1..]) > limit
  {
    out := [];
    var total := 0;
    var k := |rows|;
    while k > 0
      invariant 0 <= k <= |rows| && |out| == |rows| - k
      invariant out == Entries(rows[k..]) && total == SumCost(rows[k..])
      invariant total <= limit || out == []
    {
      var row := rows[k - 1];
      var cost := EstimateTokens(row.text.GetOr("")) + EstimateTokens(row.sender.GetOr("")) + MessageOverhead;
      assert rows[k - 1..][1..] == rows[k..];
      if total + cost > limit {
        return;
      }
      out := [EntryOf(row)] + out;
      total := total + cost;
      k := k - 1;
    }
  }

  /** The suffix selected is the longest within the budget: every longer one overflows. */
  lemma SelectionIsLongest(rows: seq<Row>, limit: int, n: nat, j: nat)
    requires n < |rows| && SumCost(rows[|rows| - n - 1..]) > limit
    requires j < |rows| - n
    ensures SumCost(rows[j..]) > limit
  {
    SumCostGrows(rows, j, |rows| - n - 1);
  }

  // ---------------------------------------------------------------------------------
  // The prompt

  /** The instructions that open every prompt, after the line naming the agent. */
  const Rules: seq<string> := [
    "",
    "IMPORTANT RULES:",
    "- You are here to have interesting, engaging conversations with visitors",
    "- Do NOT comment on the conversation structure or say things like 'this is a recursive loop'",
    "- Do NOT repeat or paraphrase what you've already said recently",
    "- If the conversation is quiet, bring up an interesting topic, ask a question, or share something fun",
    "- Be friendly, curious, and conversational - like a good chat room participant",
    "- Keep responses concise (1-3 sentences usually)",
    "",
    "Recent messages (oldest first):"]

  const Closing := "Write your next message to the chat:"

  function Intro(channel: string, sender: string): string {
    "You are an AI assistant named '" + sender + "' participating in the #" + channel + " chat channel."
  }

  /** One history line; the timestamp is shown as stored. */
  function HistoryLine(e: Entry): string {
    "[" + e.timestamp + "] " + e.sender + ": " + e.text
  }

  /** `history[-200:]` */
  function Window(history: seq<Entry>): (w: seq<Entry>)
    ensures |w| <= PromptHistory && |w| <= |history|
    ensures w == history[|history| - |w|..]
    ensures |history| <= PromptHistory ==> w == history
  {
    if |history| <= PromptHistory then history else history[|history| - PromptHistory..]
  }

  /**
   * The lines of the prompt: the agent and channel, the `rules`, one line per entry of
   * the last 200, a blank line and the closing request.
   */
  function PromptLines(rules: seq<string>, channel: string, history: seq<Entry>, sender: string): (lines: seq<string>)
    ensures |lines| == |rules| + 3 + |Window(history)|
    ensures lines[0] == Intro(channel, sender) && lines[1..|rules| + 1] == rules
    ensures forall k :: 0 <= k < |Window(history)| ==> lines[|rules| + 1 + k] == HistoryLine(Window(history)[k])
    ensures lines[|lines| - 2] == "" && lines[|lines| - 1] == Closing
  {
    var w := Window(history);
    [Intro(channel, sender)] + rules + seq(|w|, k requires 0 <= k < |w| => HistoryLine(w[k])) + ["", Closing]
  }

  /**
   * `_build_prompt`: the lines appended one by one and joined by newlines; the prompt
   * opens with the line naming the agent and channel and ends with the closing request.
   */
  method BuildPrompt(channel: string, history: seq<Entry>, sender: string) returns (prompt: string)
    ensures prompt == Join(PromptLines(Rules, channel, history, sender), "\n")
    ensures |Intro(channel, sender)| <= |prompt| && prompt[..|Intro(channel, sender)|] == Intro(channel, sender)
    ensures |Closing| <= |prompt| && prompt[|prompt| - |Closing|..] == Closing
  {
    var rules := Rules;
    var lines := AppendHistory([Intro(channel, sender)] + rules, Window(history));
    lines := lines + ["", Closing];
    assert lines == PromptLines(rules, channel, history, sender);
    JoinEnds(lines, "\n");
    prompt := Join(lines, "\n");
  }

  /** The loop of `_build_prompt` that appends one line per history entry. */
  method AppendHistory(head: seq<string>, w: seq<Entry>) returns (lines: seq<string>)
    ensures lines == head + seq(|w|, k requires 0 <= k < |w| => HistoryLine(w[k]))
  {
    lines := head;
    var i := 0;
    while i < |w|
      invariant 0 <= i <= |w|
      invariant lines == head + seq(i, k requires 0 <= k < i => HistoryLine(w[k]))
    {
      assert seq(i + 1, k requires 0 <= k < i + 1 => HistoryLine(w[k]))
          == seq(i, k requires 0 <= k < i => HistoryLine(w[k])) + [HistoryLine(w[i])];
      lines := lines + [HistoryLine(w[i])];
      i := i + 1;
    }
  }

  // ---------------------------------------------------------------------------------
  // Configuration

  /**
   * The channel list: the comma-separated pieces of `AUGMENT_AGENT_CHANNELS` (`general`
   * when unset), stripped, with empty ones dropped.
   */
  function Channels(config: Option<string>): (r: seq<string>)
    ensures CleanEntries(r) && forall k :: 0 <= k < |r| ==> ',' !in r[k]
  {
    SplitStripped(config.GetOr(DefaultChannels), ',')
  }

  /**
   * A list of channel names written out with commas (and any white space after them)
   * is read back as that list.
   */
  lemma ChannelsOfList(names: seq<string>, pad: string)
    requires CleanEntries(names) && forall k :: 0 <= k < |names| ==> ',' !in names[k]
    requires AllSpace(pad) && ',' !in pad
    ensures Channels(Some(Join(names, [','] + pad))) == names
  {
    SplitStrippedOfJoin(names, ',', pad);
  }

  /** An unset variable gives the one channel `general`. */
  lemma ChannelsDefault()
    ensures Channels(None) == [DefaultChannels]
  {
    assert IsStripped(DefaultChannels) && ',' !in DefaultChannels;
    SplitStrippedOfJoin([DefaultChannels], ',', "");
  }
}
