/**
 * The web logger of `LoggerServer.py`: two append-only lists of entries,
 * `logs` for level 0 and `info` for every other level, a running flag, and
 * per-client read cursors so that each browser polling `/updates` receives
 * every entry once. HTTP, JSON text and threads are outside the model: a
 * request arrives as its path, its client identifier and its decoded body.
 */
module WebLogger {
  import opened Text

  /** A decoded JSON value; Python's `None` is `Null`. */
  datatype Json =
    | Null
    | Bool(b: bool)
    | Num(n: real)
    | Str(s: string)
    | Arr(items: seq<Json>)
    | Obj(fields: map<string, Json>)

  /** The field an entry carries beside the common ones. */
  datatype Extra = NoExtra | Title(title: Json) | Transparency(transparency: Json)

  /** One stored entry: `{'id', 'command', 'level', 'args'}` plus the command's own field. */
  datatype Entry = Entry(id: Json, command: string, level: Json, args: Json, extra: Extra)

  /** A client's read position in each list. */
  datatype Cursor = Cursor(log: nat, info: nat)

  /** `level == 0` in Python: true for the numbers 0 and 0.0 and for `False`, which is the integer 0. */
  predicate IsLevelZero(level: Json)
  {
    level == Num(0.0) || level == Bool(false)
  }

  /** The two lists after appending `e` to the one its level selects. */
  function Routed(logs: seq<Entry>, info: seq<Entry>, e: Entry): (seq<Entry>, seq<Entry>)
  {
    if IsLevelZero(e.level) then (logs + [e], info) else (logs, info + [e])
  }

  /** Every write adds exactly one entry, at the end of exactly one list, and leaves the other list alone. */
  lemma RoutedAppendsOne(logs: seq<Entry>, info: seq<Entry>, e: Entry)
    ensures var (l, i) := Routed(logs, info, e);
      |l| + |i| == |logs| + |info| + 1
      && l[..|logs|] == logs && i[..|info|] == info
      && (IsLevelZero(e.level) <==> |l| == |logs| + 1)
      && (IsLevelZero(e.level) ==> l[|logs|] == e && i == info)
      && (!IsLevelZero(e.level) ==> i[|info|] == e && l == logs)
  {
  }

  /** `data.get(key, default)`. */
  function Get(data: map<string, Json>, key: string, default: Json): Json
  {
    if key in data then data[key] else default
  }

  /** The entry `/submit` stores for a decoded JSON object, or `None` for a command it does not know. */
  function SubmitEntry(data: map<string, Json>): Option<Entry>
  {
    var id := Get(data, "id", Str("unknown"));
    var command := Get(data, "command", Null);
    var level := Get(data, "level", Num(0.0));
    var args := Get(data, "args", Null);
    if command == Str("log") then Some(Entry(id, "log", level, args, NoExtra))
    else if command == Str("box") then Some(Entry(id, "box", level, args, Title(Get(data, "title", Str("Information")))))
    else if command == Str("gif") then Some(Entry(id, "gif", level, args, Transparency(Get(data, "transparency", Num(0.3)))))
    else None
  }

  /**
   * Only `log`, `box` and `gif` store an entry; it copies the object's
   * fields, and a missing level, title, transparency or identifier takes
   * its default, so a message without a level goes to `logs`.
   */
  lemma SubmitEntryFields(data: map<string, Json>)
    ensures SubmitEntry(data).Some? <==> "command" in data && data["command"] in {Str("log"), Str("box"), Str("gif")}
    ensures SubmitEntry(data).Some? ==>
      var e := SubmitEntry(data).value;
      Str(e.command) == data["command"]
      && e.id == (if "id" in data then data["id"] else Str("unknown"))
      && e.args == (if "args" in data then data["args"] else Null)
      && e.level == (if "level" in data then data["level"] else Num(0.0))
      && ("level" !in data ==> IsLevelZero(e.level))
      && (e.command == "log" <==> e.extra == NoExtra)
      && (e.command == "box" ==> e.extra == Title(if "title" in data then data["title"] else Str("Information")))
      && (e.command == "gif" ==> e.extra == Transparency(if "transparency" in data then data["transparency"] else Num(0.3)))
  {
  }

  /** The cursor of `client`; a client not seen before starts at the beginning of both lists. */
  function CursorOf(indices: Option<map<string, Cursor>>, client: string): (c: Cursor)
    ensures indices.None? || client !in indices.value ==> c == Cursor(0, 0)
  {
    if indices.Some? && client in indices.value then indices.value[client] else Cursor(0, 0)
  }

  /** What `/updates` returns for a client at `c`: the unseen logs, then the unseen info. */
  function Pending(logs: seq<Entry>, info: seq<Entry>, c: Cursor): seq<Entry>
  {
    (if c.log < |logs| then logs[c.log..] else []) + (if c.info < |info| then info[c.info..] else [])
  }

  /** The cursor after `/updates`: each index that was behind moves to the end of its list. */
  function Advanced(logs: seq<Entry>, info: seq<Entry>, c: Cursor): Cursor
  {
    Cursor(if c.log < |logs| then |logs| else c.log, if c.info < |info| then |info| else c.info)
  }

  /** A cursor never moves back, and one that was within the lists ends at their ends. */
  lemma AdvancedMonotone(logs: seq<Entry>, info: seq<Entry>, c: Cursor)
    ensures var a := Advanced(logs, info, c);
      c.log <= a.log && c.info <= a.info
      && (c.log <= |logs| && c.info <= |info| ==> a == Cursor(|logs|, |info|))
  {
  }

  /** An immediately repeated `/updates` returns nothing. */
  lemma RepeatedUpdatesEmpty(logs: seq<Entry>, info: seq<Entry>, c: Cursor)
    ensures Pending(logs, info, Advanced(logs, info, c)) == []
  {
  }

  /**
   * After a client has caught up, its next `/updates` returns exactly the
   * entries written since, the new logs before the new info: nothing is
   * lost and nothing is sent twice.
   */
  lemma CaughtUpReceivesNew(logs: seq<Entry>, info: seq<Entry>, newLogs: seq<Entry>, newInfo: seq<Entry>)
    ensures Pending(logs + newLogs, info + newInfo, Cursor(|logs|, |info|)) == newLogs + newInfo
  {
    if |newLogs| > 0 {
      assert (logs + newLogs)[|logs|..] == newLogs;
    }
    if |newInfo| > 0 {
      assert (info + newInfo)[|info|..] == newInfo;
    }
  }

  /** A new client receives every entry stored so far. */
  lemma NewClientReceivesAll(logs: seq<Entry>, info: seq<Entry>)
    ensures Pending(logs, info, Cursor(0, 0)) == logs + info
  {
    if |logs| > 0 {
      assert logs[0..] == logs;
    }
    if |info| > 0 {
      assert info[0..] == info;
    }
  }

  /** How a request ends. */
  datatype Response =
    | Page
    | Updates(entries: seq<Entry>)
    | Success
    | InvalidJson
    | ShutdownAck
    | NoResponse
    | NotFound

  /** `for x in xs[index:]: updates.append(x)`, skipped when `index` is not behind. */
  method Unseen(xs: seq<Entry>, index: nat) returns (out: seq<Entry>)
    ensures out == if index < |xs| then xs[index..] else []
  {
    out := [];
    if index < |xs| {
      var k := index;
      while k < |xs|
        invariant index <= k <= |xs|
        invariant out == xs[index..k]
      {
        out := out + [xs[k]];
        k := k + 1;
      }
    }
  }

  class WebLoggerServer {
    const port: int
    var logs: seq<Entry>
    var info: seq<Entry>
    var running: bool
    /** `client_indices`, created by the first `/updates`. */
    var clientIndices: Option<map<string, Cursor>>

    /** Every cursor lies within its list. */
    ghost predicate Valid()
      reads this
    {
      clientIndices.Some? ==>
        forall client :: client in clientIndices.value ==>
          clientIndices.value[client].log <= |logs| && clientIndices.value[client].info <= |info|
    }

    constructor(port: int)
      ensures this.port == port && logs == [] && info == [] && !running && clientIndices.None?
      ensures Valid()
    {
      this.port := port;
      logs := [];
      info := [];
      running := false;
      clientIndices := None;
    }

    /** The append shared by the three writers and `/submit`. */
    method Append(e: Entry)
      requires Valid()
      modifies this
      ensures (logs, info) == Routed(old(logs), old(info), e)
      ensures running == old(running) && clientIndices == old(clientIndices)
      ensures Valid()
    {
      if IsLevelZero(e.level) {
        logs := logs + [e];
      } else {
        info := info + [e];
      }
    }

    /** `add_log`. */
    method AddLog(text: string, level: int, senderId: string)
      requires Valid()
      modifies this
      ensures (logs, info) == Routed(old(logs), old(info), Entry(Str(senderId), "log", Num(level as real), Str(text), NoExtra))
      ensures running == old(running) && clientIndices == old(clientIndices)
      ensures Valid()
    {
      Append(Entry(Str(senderId), "log", Num(level as real), Str(text), NoExtra));
    }

    /** `add_box`. */
    method AddBox(text: string, title: string, level: int, senderId: string)
      requires Valid()
      modifies this
      ensures (logs, info) == Routed(old(logs), old(info), Entry(Str(senderId), "box", Num(level as real), Str(text), Title(Str(title))))
      ensures running == old(running) && clientIndices == old(clientIndices)
      ensures Valid()
    {
      Append(Entry(Str(senderId), "box", Num(level as real), Str(text), Title(Str(title))));
    }

    /** `add_gif_background`. */
    method AddGifBackground(gifUrl: string, level: int, transparency: real, senderId: string)
      requires Valid()
      modifies this
      ensures (logs, info) == Routed(old(logs), old(info), Entry(Str(senderId), "gif", Num(level as real), Str(gifUrl), Transparency(Num(transparency))))
      ensures running == old(running) && clientIndices == old(clientIndices)
      ensures Valid()
    {
      Append(Entry(Str(senderId), "gif", Num(level as real), Str(gifUrl), Transparency(Num(transparency))));
    }

    /** `start`: nothing when already running, else the server runs. */
    method Start(openBrowser: bool)
      modifies this
      ensures running
      ensures old(running) ==> unchanged(this)
      ensures logs == old(logs) && info == old(info) && clientIndices == old(clientIndices)
    {
      if running {
        return;
      }
      running := true;
    }

    /** `stop`: nothing when not running, else the server stops. */
    method Stop()
      modifies this
      ensures !running
      ensures !old(running) ==> unchanged(this)
      ensures logs == old(logs) && info == old(info) && clientIndices == old(clientIndices)
    {
      if !running {
        return;
      }
      running := false;
    }

    /** `/updates` for `client`: its unseen entries, and its cursor moved past them. */
    method PollUpdates(client: string) returns (updates: seq<Entry>)
      requires Valid()
      modifies this
      ensures updates == Pending(logs, info, CursorOf(old(clientIndices), client))
      ensures clientIndices.Some?
      ensures clientIndices.value == (if old(clientIndices).Some? then old(clientIndices).value else map[])[client := Cursor(|logs|, |info|)]
      ensures logs == old(logs) && info == old(info) && running == old(running)
      ensures Valid()
    {
      // `client_indices` is created on first use and a new client starts at (0, 0).
      var indices := if clientIndices.Some? then clientIndices.value else map[];
      var c := if client in indices then indices[client] else Cursor(0, 0);
      assert c.log <= |logs| && c.info <= |info|;
      var newLogs := Unseen(logs, c.log);
      var newInfo := Unseen(info, c.info);
      updates := newLogs + newInfo;
      clientIndices := Some(indices[client := Advanced(logs, info, c)]);
    }

    /** `/submit` with its decoded body: `None` is a body that is not JSON. */
    method Submit(body: Option<Json>) returns (response: Response)
      requires Valid()
      modifies this
      ensures body.None? ==> response == InvalidJson && unchanged(this)
      ensures body.Some? && !body.value.Obj? ==> response == NoResponse && unchanged(this)
      ensures body.Some? && body.value.Obj? ==>
        response == Success
        && (logs, info) == (var e := SubmitEntry(body.value.fields);
                            if e.Some? then Routed(old(logs), old(info), e.value) else (old(logs), old(info)))
        && running == old(running) && clientIndices == old(clientIndices)
      ensures Valid()
    {
      if body.None? {
        return InvalidJson;
      }
      if !body.value.Obj? {
        // `data.get` raises on a JSON value that is not an object; the exception is not caught.
        return NoResponse;
      }
      var e := SubmitEntry(body.value.fields);
      if e.Some? {
        Append(e.value);
      }
      response := Success;
    }

    /** `do_GET`. */
    method HandleGet(path: string, client: string) returns (response: Response)
      requires Valid()
      modifies this
      ensures path == "/updates" ==> response == Updates(Pending(logs, info, CursorOf(old(clientIndices), client)))
      ensures path == "/" ==> response == Page && unchanged(this)
      ensures path != "/" && path != "/updates" ==> response == NotFound && unchanged(this)
      ensures logs == old(logs) && info == old(info) && running == old(running)
      ensures Valid()
    {
      if path == "/" {
        return Page;
      } else if path == "/updates" {
        var updates := PollUpdates(client);
        return Updates(updates);
      }
      response := NotFound;
    }

    /** `do_POST`; `/shutdown` answers and then stops the server. */
    method HandlePost(path: string, body: Option<Json>) returns (response: Response)
      requires Valid()
      modifies this
      ensures path == "/shutdown" ==>
        (response == ShutdownAck && !running
         && logs == old(logs) && info == old(info) && clientIndices == old(clientIndices))
      ensures path != "/submit" && path != "/shutdown" ==> response == NotFound && unchanged(this)
      ensures path == "/submit" ==>
        (response in {Success, InvalidJson, NoResponse}
         && running == old(running) && clientIndices == old(clientIndices)
         && |logs| + |info| <= |old(logs)| + |old(info)| + 1
         && old(logs) <= logs && old(info) <= info)
      ensures Valid()
    {
      if path == "/submit" {
        response := Submit(body);
        if body.Some? && body.value.Obj? && SubmitEntry(body.value.fields).Some? {
          RoutedAppendsOne(old(logs), old(info), SubmitEntry(body.value.fields).value);
        }
      } else if path == "/shutdown" {
        response := ShutdownAck;
        Stop();
      } else {
        response := NotFound;
      }
    }
  }
}
