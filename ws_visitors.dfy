/**
 * The visitors WebSocket: the client address a connection is counted under, the per-IP
 * table of open connections that admits or refuses a connection and releases it when it
 * closes, the way incoming text frames are sorted, and the handler of an analytics batch.
 */
module WsVisitors {
  import opened Wrappers
  import opened Text

  // ---------------------------------------------------------------------------------
  // Client address

  /** The first piece of a split is everything before the first separator. */
  lemma SplitFirst(s: string, sep: char)
    requires sep in s
    ensures Split(s, sep)[0] == s[..IndexOf(s, sep)]
  {
  }

  /**
   * The address a connection is counted under: the `x-forwarded-for` header, or the peer
   * address when it is absent; a value holding a comma is cut to its first entry, with
   * white space stripped; any other value is kept exactly as given.
   */
  function ClientIp(forwardedFor: Option<string>, host: string): (ip: string)
    ensures var v := forwardedFor.GetOr(host);
      && (',' !in v ==> ip == v)
      && (',' in v ==> ip == Strip(v[..IndexOf(v, ',')]) && ',' !in ip)
  {
    var v := forwardedFor.GetOr(host);
    if ',' in v then
      SplitFirst(v, ',');
      StripInfix(Split(v, ',')[0]);
      Strip(Split(v, ',')[0])
    else v
  }

  /** A proxy chain `client, proxy1, ...` is counted under its first address. */
  lemma ClientIpOfChain(first: string, rest: string, host: string)
    requires ',' !in first
    ensures ClientIp(Some(first + "," + rest), host) == Strip(first)
  {
    var v := first + "," + rest;
    assert v[|first|] == ',';
    var i := IndexOf(v, ',');
    assert v[..|first|] == first;
    assert v[..i] == first;
  }

  // ---------------------------------------------------------------------------------
  // Connections per address

  /** `table.get(ip, 0)` */
  function Count(table: map<string, nat>, ip: string): nat {
    if ip in table then table[ip] else 0
  }

  /** Every counter is within the limit. */
  predicate Bounded(table: map<string, nat>, maxPerIp: int) {
    forall ip :: ip in table ==> table[ip] <= maxPerIp
  }

  /** No entry holds a zero counter. */
  predicate Positive(table: map<string, nat>) {
    forall ip :: ip in table ==> table[ip] > 0
  }

  /**
   * The table after an admission: the counter of `ip` goes up by one when that stays
   * within `maxPerIp`, and is otherwise left at its prior value, which writes an entry
   * (possibly zero) for an address that had none. No other address is touched.
   */
  function Admitted(table: map<string, nat>, ip: string, maxPerIp: int): (t: map<string, nat>)
    ensures ip in t && t - {ip} == table - {ip}
    ensures Count(table, ip) < maxPerIp ==> t[ip] == Count(table, ip) + 1 && t[ip] <= maxPerIp
    ensures Count(table, ip) >= maxPerIp ==> t[ip] == Count(table, ip)
  {
    var current := Count(table, ip) + 1;
    if current > maxPerIp then table[ip := current - 1] else table[ip := current]
  }

  /**
   * The table after a release: the counter of `ip` goes down by one but not below zero,
   * and the entry is removed when it reaches zero; an address without an entry leaves the
   * table as it is. No other address is touched.
   */
  function Released(table: map<string, nat>, ip: string): (t: map<string, nat>)
    ensures ip !in table ==> t == table
    ensures t - {ip} == table - {ip}
    ensures ip in t <==> Count(table, ip) > 1
    ensures Count(t, ip) == if Count(table, ip) > 0 then Count(table, ip) - 1 else 0
  {
    if ip in table then
      var next := if table[ip] > 1 then table[ip] - 1 else 0;
      if next == 0 then table - {ip} else table[ip := next]
    else table
  }

  /** Admission keeps every counter within a limit that is not negative. */
  lemma AdmitKeepsBounded(table: map<string, nat>, ip: string, maxPerIp: int)
    requires Bounded(table, maxPerIp) && maxPerIp >= 0
    ensures Bounded(Admitted(table, ip, maxPerIp), maxPerIp)
  {
    var t := Admitted(table, ip, maxPerIp);
    forall k | k in t ensures t[k] <= maxPerIp {
      if k != ip {
        assert k in t - {ip};
      }
    }
  }

  /** Release keeps every counter within the limit. */
  lemma ReleaseKeepsBounded(table: map<string, nat>, ip: string, maxPerIp: int)
    requires Bounded(table, maxPerIp)
    ensures Bounded(Released(table, ip), maxPerIp)
  {
    var t := Released(table, ip);
    forall k | k in t ensures t[k] <= maxPerIp {
      if k != ip {
        assert k in t - {ip};
      }
    }
  }

  /**
   * With a limit of at least one, a refused address already had an entry, so admission
   * never writes a zero counter; release never leaves one either.
   */
  lemma AdmitKeepsPositive(table: map<string, nat>, ip: string, maxPerIp: int)
    requires Positive(table) && maxPerIp >= 1
    ensures Positive(Admitted(table, ip, maxPerIp))
  {
    var t := Admitted(table, ip, maxPerIp);
    forall k | k in t ensures t[k] > 0 {
      if k != ip {
        assert k in t - {ip};
      }
    }
  }

  lemma ReleaseKeepsPositive(table: map<string, nat>, ip: string)
    requires Positive(table)
    ensures Positive(Released(table, ip))
  {
    var t := Released(table, ip);
    forall k | k in t ensures t[k] > 0 {
      if k != ip {
        assert k in t - {ip};
      }
    }
  }

  /** A limit below one refuses every connection and leaves a zero entry behind. */
  lemma RefusedLeavesZero(table: map<string, nat>, ip: string, maxPerIp: int)
    requires ip !in table && maxPerIp < 1
    ensures Admitted(table, ip, maxPerIp) == table[ip := 0]
  {
  }

  /** Releasing an admitted connection gives back the table it was admitted to. */
  lemma ReleaseUndoesAdmit(table: map<string, nat>, ip: string, maxPerIp: int)
    requires Positive(table) && Count(table, ip) < maxPerIp
    ensures Released(Admitted(table, ip, maxPerIp), ip) == table
  {
    var t := Released(Admitted(table, ip, maxPerIp), ip);
    assert t - {ip} == table - {ip};
    if ip in table {
      assert t.Keys == table.Keys;
    } else {
      assert t.Keys == table.Keys;
    }
  }

  /** `state.active_ws_visitors_by_ip`, updated under its lock. */
  class VisitorTable {
    var activeByIp: map<string, nat>

    constructor()
      ensures activeByIp == map[]
    {
      activeByIp := map[];
    }

    /**
     * Admission: the counter is incremented and, when it then exceeds the limit, the
     * connection is refused (closed with code 1008) and the counter put back. The put-back
     * comes after the close: when closing raises (`closeRaises`), the raised counter stays.
     */
    method Admit(ip: string, maxPerIp: int, closeRaises: bool) returns (accepted: bool)
      modifies this`activeByIp
      ensures accepted <==> Count(old(activeByIp), ip) < maxPerIp
      ensures activeByIp == if !accepted && closeRaises then old(activeByIp)[ip := Count(old(activeByIp), ip) + 1]
                            else Admitted(old(activeByIp), ip, maxPerIp)
      ensures accepted ==> activeByIp[ip] <= maxPerIp
    {
      var current := Count(activeByIp, ip) + 1;
      activeByIp := activeByIp[ip := current];
      if current > maxPerIp {
        if closeRaises {
          return false;
        }
        activeByIp := activeByIp[ip := current - 1];
        return false;
      }
      return true;
    }

    /** Release when the connection closes: decrement with a floor of zero, drop a zero entry. */
    method Release(ip: string)
      modifies this`activeByIp
      ensures activeByIp == Released(old(activeByIp), ip)
    {
      if ip in activeByIp {
        var next := activeByIp[ip] as int - 1;
        activeByIp := activeByIp[ip := if next > 0 then next else 0];
        if activeByIp[ip] == 0 {
          activeByIp := activeByIp - {ip};
        }
      }
    }
  }

  // ---------------------------------------------------------------------------------
  // Messages

  /** A decoded JSON value; numbers are read as reals. */
  datatype Json =
    | JNull
    | JBool(b: bool)
    | JNumber(n: real)
    | JString(s: string)
    | JArray(items: seq<Json>)
    | JObject(fields: map<string, Json>)

  /** Python's truth value of a decoded value: false for null, false, zero and empties. */
  predicate Truthy(j: Json) {
    match j
    case JNull => false
    case JBool(b) => b
    case JNumber(n) => n != 0.0
    case JString(s) => s != []
    case JArray(items) => items != []
    case JObject(fields) => fields != map[]
  }

  /** `obj.get(key, default)` */
  function Field(obj: map<string, Json>, key: string, default: Json): Json {
    if key in obj then obj[key] else default
  }

  /** What the handler of an analytics batch did. */
  datatype BatchOutcome =
    | UnknownTopic
    | NoEvents
    | Inserted(count: int)
    | InsertFailed
    | PayloadNotObject

  /** The click-event insert: the number of rows inserted, or `None` when it raised. */
  type Inserter = (Json, string) -> Option<int>

  /** The `payload` of a batch message, an empty object when absent. */
  function Payload(data: map<string, Json>): Json {
    Field(data, "payload", JObject(map[]))
  }

  /**
   * `_handle_analytics_batch`: the insert is called, with the payload's events and the
   * client address, exactly when the topic is `clicks` and the events are not empty;
   * an error it raises is swallowed. A payload that is not an object makes the handler
   * raise inside its own task, before any insert.
   */
  function HandleAnalyticsBatch(data: map<string, Json>, clientIp: string, insert: Inserter): (o: BatchOutcome)
    ensures !Payload(data).JObject? <==> o == PayloadNotObject
    ensures Payload(data).JObject? ==>
      var payload := Payload(data).fields;
      var events := Field(payload, "events", JArray([]));
      && (o == UnknownTopic <==> Field(payload, "topic", JNull) != JString("clicks"))
      && (o == NoEvents <==> Field(payload, "topic", JNull) == JString("clicks") && !Truthy(events))
      && ((o.Inserted? || o.InsertFailed?) ==> insert(events, clientIp) == (if o.Inserted? then Some(o.count) else None))
  {
    match Payload(data)
    case JObject(payload) =>
      var topic := Field(payload, "topic", JNull);
      var events := Field(payload, "events", JArray([]));
      if topic != JString("clicks") then UnknownTopic
      else if !Truthy(events) then NoEvents
      else (match insert(events, clientIp)
            case Some(n) => Inserted(n)
            case None => InsertFailed)
    case _ => PayloadNotObject
  }

  /** A batch of click events reaches the insert with its events and the client address. */
  lemma ClicksBatchInserted(events: seq<Json>, clientIp: string, insert: Inserter)
    requires events != []
    ensures var data := map["payload" := JObject(map["topic" := JString("clicks"), "events" := JArray(events)])];
      var o := HandleAnalyticsBatch(data, clientIp, insert);
      (o.Inserted? && insert(JArray(events), clientIp) == Some(o.count))
      || (o == InsertFailed && insert(JArray(events), clientIp) == None)
  {
  }

  /** Any other topic never reaches the insert. */
  lemma OtherTopicIgnored(topic: string, events: seq<Json>, clientIp: string, insert: Inserter)
    requires topic != "clicks"
    ensures var data := map["payload" := JObject(map["topic" := JString(topic), "events" := JArray(events)])];
      HandleAnalyticsBatch(data, clientIp, insert) == UnknownTopic
  {
  }

  /** How the receive loop treats one text frame. */
  datatype Incoming = Keepalive | NotJson | Ignored | Batch(msg: map<string, Json>)

  /** `json.loads`: the decoded value, or `None` for text that is not JSON. */
  type Decoder = string -> Option<Json>

  /**
   * One frame: `pong` is a keepalive; text that is not JSON is dropped; a JSON object
   * whose `type` is `analytics.batch` is handed to the batch handler; anything else is
   * dropped.
   */
  function Classify(text: string, decode: Decoder): (r: Incoming)
    ensures r.Batch? <==> text != "pong" && decode(text).Some? && decode(text).value.JObject?
                          && Field(decode(text).value.fields, "type", JNull) == JString("analytics.batch")
    ensures r.Batch? ==> decode(text) == Some(JObject(r.msg))
    ensures r == NotJson <==> text != "pong" && decode(text).None?
  {
    if text == "pong" then Keepalive
    else match decode(text)
      case None => NotJson
      case Some(JObject(fields)) =>
        if Field(fields, "type", JNull) == JString("analytics.batch") then Batch(fields) else Ignored
      case Some(_) => Ignored
  }

  /** The batch messages handed on, in the order their frames arrived. */
  function Dispatched(frames: seq<string>, decode: Decoder): (r: seq<map<string, Json>>)
    ensures |r| <= |frames|
    ensures forall k :: 0 <= k < |r| ==> Field(r[k], "type", JNull) == JString("analytics.batch")
  {
    if frames == [] then []
    else
      var last := frames[|frames| - 1];
      var earlier := Dispatched(frames[..|frames| - 1], decode);
      match Classify(last, decode)
      case Batch(msg) => earlier + [msg]
      case _ => earlier
  }

  /** The frames handed on are those of the first part followed by those of the second. */
  lemma {:induction false} DispatchedAppend(a: seq<string>, b: seq<string>, decode: Decoder)
    ensures Dispatched(a + b, decode) == Dispatched(a, decode) + Dispatched(b, decode)
    decreases |b|
  {
    if b == [] {
      assert a + b == a;
    } else {
      var b0 := b[..|b| - 1];
      assert (a + b)[..|a + b| - 1] == a + b0;
      assert (a + b)[|a + b| - 1] == b[|b| - 1];
      DispatchedAppend(a, b0, decode);
    }
  }

  /** A keepalive, a frame that is not JSON, or any other JSON hands nothing on. */
  lemma NothingDispatched(frame: string, decode: Decoder)
    requires !Classify(frame, decode).Batch?
    ensures Dispatched([frame], decode) == []
  {
    assert [frame][..0] == [];
  }

  /** The receive loop, over the frames that arrived before the client went away. */
  method ReceiveLoop(frames: seq<string>, decode: Decoder) returns (tasks: seq<map<string, Json>>)
    ensures tasks == Dispatched(frames, decode)
  {
    tasks := [];
    var i := 0;
    while i < |frames|
      invariant 0 <= i <= |frames|
      invariant tasks == Dispatched(frames[..i], decode)
    {
      assert frames[..i + 1][..i] == frames[..i];
      var incoming := Classify(frames[i], decode);
      if incoming.Batch? {
        tasks := tasks + [incoming.msg];
      }
      i := i + 1;
    }
    assert frames[..i] == frames;
  }

  /**
   * One visitor connection, as written: the client address is worked out and admitted; a
   * refused connection ends there; an admitted one joins the visitors, subscribes to their
   * updates, runs its receive loop and is released when it closes. Joining and subscribing
   * happen before the `try` whose `finally` releases: when one of them raises
   * (`setupRaises`), the connection ends still counted. So does a refused one whose close
   * raises (`closeRaises`). Otherwise, when no entry held a zero counter, an accepted
   * connection leaves the table as it began.
   */
  method Session(table: VisitorTable, forwardedFor: Option<string>, host: string, maxPerIp: int,
                 closeRaises: bool, setupRaises: bool, frames: seq<string>, decode: Decoder)
    returns (ip: string, accepted: bool, tasks: seq<map<string, Json>>)
    modifies table`activeByIp
    ensures ip == ClientIp(forwardedFor, host)
    ensures accepted <==> Count(old(table.activeByIp), ip) < maxPerIp
    ensures !accepted || setupRaises ==> tasks == []
    ensures !accepted && !closeRaises ==> table.activeByIp == Admitted(old(table.activeByIp), ip, maxPerIp)
    ensures accepted && !setupRaises ==>
      && tasks == Dispatched(frames, decode)
      && table.activeByIp == Released(Admitted(old(table.activeByIp), ip, maxPerIp), ip)
    ensures accepted && !setupRaises && Positive(old(table.activeByIp)) ==> table.activeByIp == old(table.activeByIp)
    ensures (accepted && setupRaises) || (!accepted && closeRaises) ==>
      && table.activeByIp - {ip} == old(table.activeByIp) - {ip}
      && Count(table.activeByIp, ip) == Count(old(table.activeByIp), ip) + 1
  {
    ip := ClientIp(forwardedFor, host);
    accepted := table.Admit(ip, maxPerIp, closeRaises);
    if !accepted {
      return ip, false, [];
    }
    if setupRaises {
      return ip, true, [];
    }
    tasks := ReceiveLoop(frames, decode);
    table.Release(ip);
    if Positive(old(table.activeByIp)) {
      ReleaseUndoesAdmit(old(table.activeByIp), ip, maxPerIp);
    }
  }

  /**
   * What a leaked connection does to its address: with a limit of one, an address left
   * counted once is refused from then on, and each refusal leaves the table as it is.
   */
  lemma LeakLocksOut(table: map<string, nat>, ip: string)
    requires Count(table, ip) == 0
    ensures var leaked := table[ip := Count(table, ip) + 1];
      && Count(leaked, ip) == 1
      && Admitted(leaked, ip, 1) == leaked
      && leaked != table
  {
    var leaked := table[ip := 1];
    assert ip in leaked && Count(leaked, ip) == 1;
    assert leaked[ip] != Count(table, ip);
  }

  /**
   * One visitor connection, as evidently intended: the counter is put back for a refused
   * connection whatever the close does, and an admitted connection is released even when
   * joining or subscribing raises. A connection then never stays counted.
   */
  method SessionCorrected(table: VisitorTable, forwardedFor: Option<string>, host: string, maxPerIp: int,
                          setupRaises: bool, frames: seq<string>, decode: Decoder)
    returns (ip: string, accepted: bool, tasks: seq<map<string, Json>>)
    modifies table`activeByIp
    ensures ip == ClientIp(forwardedFor, host)
    ensures accepted <==> Count(old(table.activeByIp), ip) < maxPerIp
    ensures !accepted || setupRaises ==> tasks == []
    ensures accepted && !setupRaises ==> tasks == Dispatched(frames, decode)
    ensures !accepted ==> table.activeByIp == Admitted(old(table.activeByIp), ip, maxPerIp)
    ensures accepted ==> table.activeByIp == Released(Admitted(old(table.activeByIp), ip, maxPerIp), ip)
    ensures accepted && Positive(old(table.activeByIp)) ==> table.activeByIp == old(table.activeByIp)
  {
    ip := ClientIp(forwardedFor, host);
    accepted := table.Admit(ip, maxPerIp, false);
    if !accepted {
      return ip, false, [];
    }
    tasks := [];
    if !setupRaises {
      tasks := ReceiveLoop(frames, decode);
    }
    table.Release(ip);
    if Positive(old(table.activeByIp)) {
      ReleaseUndoesAdmit(old(table.activeByIp), ip, maxPerIp);
    }
  }
}
