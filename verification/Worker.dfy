/** One task of a worker (src/worker.cc:178-423): what it leaves behind and what it answers.

    Symbol directory, entitlement, analytics, encoding and sockets are foreign calls whose
    outcomes are parameters. */
module Worker {
  import opened ItemName
  import opened UrlParse
  import opened Wrappers

  datatype Analytic = Bar | Test | RollupBar | Close

  datatype Foreign = Foreign(
    symbolExists: bool, entitled: bool, calculated: bool, written: bool, closeWritten: bool, sent: bool)

  datatype Answer = Payload | NotFound | NotEntitled | InternalError

  /** What a task asks for. Handle and token come back with the reply, untouched. */
  datatype Task = Task(handle: nat, token: int, abort: bool, itemName: string)

  datatype Reply = Reply(handle: nat, token: int, answer: Answer)

  /** What the query asks for: nothing is left over from earlier tasks, and nothing is asked of
      an analytic when the symbol is not there. */
  function PeriodFor(query: Option<string>, f: Foreign): Period {
    if !f.symbolExists || query.None? then NO_PERIOD else PeriodAfter(NO_PERIOD, Pairs(query.value))
  }

  class Worker {
    var url: string
    var underlyingSymbol: string
    var periods: map<Analytic, Period>

    constructor ()
      ensures periods == map[Bar := NO_PERIOD, Test := NO_PERIOD, RollupBar := NO_PERIOD, Close := NO_PERIOD]
    {
      url, underlyingSymbol := "", "";
      periods := map[Bar := NO_PERIOD, Test := NO_PERIOD, RollupBar := NO_PERIOD, Close := NO_PERIOD];
    }

    /** One reply is sent for a task, unless the worker ends. The first check that fails decides
        the answer; a file name is always found, so there is none for a malformed request. The
        reference of the item name chooses the analytic that is reset and reads the query; the
        test analytic reads no query and so never has a period. */
    method OnTask(task: Task, f: Foreign) returns (alive: bool, reply: Option<Reply>)
      requires Test in periods && periods[Test] == NO_PERIOD
      modifies this
      ensures Test in periods && periods[Test] == NO_PERIOD
      ensures task.abort ==> !alive && url == old(url) && underlyingSymbol == old(underlyingSymbol) && periods == old(periods)
      ensures !task.abort ==> url == PREFIX + task.itemName && underlyingSymbol == Decomposed(task.itemName).symbol
      ensures !task.abort ==>
                var item := Decomposed(task.itemName); var period := PeriodFor(item.query, f);
                && (item.ref == Some("test") ==> periods == old(periods))
                && (item.ref == Some("rollup") ==> periods == old(periods)[RollupBar := period])
                && (item.ref == Some("close") ==> periods == old(periods)[Close := period])
                && (item.ref != Some("test") && item.ref != Some("rollup") && item.ref != Some("close") ==>
                      periods == old(periods)[Bar := period])
      ensures alive <==>
                && !task.abort && f.sent
                && (f.closeWritten || (f.symbolExists && f.entitled && f.calculated && f.written))
      ensures reply.Some? <==> alive
      ensures alive ==>
                && reply.value.handle == task.handle && reply.value.token == task.token
                && (reply.value.answer == NotFound <==> !f.symbolExists)
                && (reply.value.answer == NotEntitled <==> f.symbolExists && !f.entitled)
                && (reply.value.answer == InternalError <==> f.symbolExists && f.entitled && !(f.calculated && f.written))
                && (reply.value.answer == Payload <==> f.symbolExists && f.entitled && f.calculated && f.written)
    {
      hide *;
      if task.abort {
        return false, None;
      }
      url := PREFIX + task.itemName;
      var query, ref;
      underlyingSymbol, query, ref := Decompose(url, task.itemName);
      var analytic := Choose(ref);
      Prepare(analytic, url, query, f);
      alive, reply := SendReply(task.handle, task.token, f);
    }

    /** Symbol, query and reference of an item name. */
    method Decompose(url: string, itemName: string) returns (symbol: string, query: Component, ref: Option<string>)
      requires url == PREFIX + itemName
      ensures Within(query, 0, |url|)
      ensures Item(symbol, Optional(url, query), ref) == Decomposed(itemName)
    {
      hide FileName, StandardURL, AllWithin, PREFIX;
      var parsed := ParseStandardURL(url);
      Inside(itemName);
      var fileName := NONE;
      if parsed.path.IsValid() {
        fileName := ExtractFileName(url, parsed.path);
      }
      DecomposedParts(itemName);
      symbol := url[fileName.begin..fileName.begin + fileName.len];
      query := parsed.query;
      ref := if parsed.ref.IsValid() then Some(Text(url, parsed.ref)) else None;
    }

    /** The analytic is reset, and unless it is the test one it then parses the query. */
    method Prepare(analytic: Analytic, url: string, query: Component, f: Foreign)
      requires Within(query, 0, |url|)
      modifies this`periods
      ensures periods == old(periods)[analytic := if analytic == Test then NO_PERIOD else PeriodFor(Optional(url, query), f)]
    {
      hide Pairs, PeriodAfter, Text;
      periods := periods[analytic := NO_PERIOD];
      if f.symbolExists && query.IsValid() && analytic != Test {
        var period := ParseRequest(url, query, NO_PERIOD);
        periods := periods[analytic := period];
      }
    }

    method Choose(ref: Option<string>) returns (analytic: Analytic)
      ensures analytic == Test <==> ref == Some("test")
      ensures analytic == RollupBar <==> ref == Some("rollup")
      ensures analytic == Close <==> ref == Some("close")
    {
      analytic := Bar;
      if ref.Some? {
        if ref.value == "test" {
          analytic := Test;
        } else if ref.value == "rollup" {
          analytic := RollupBar;
        } else if ref.value == "close" {
          analytic := Close;
        }
      }
    }

    /** The foreign part: look up, authorise, calculate, encode, and send. */
    method SendReply(handle: nat, token: int, f: Foreign) returns (alive: bool, reply: Option<Reply>)
      ensures alive <==> f.sent && (f.closeWritten || (f.symbolExists && f.entitled && f.calculated && f.written))
      ensures reply.Some? <==> alive
      ensures alive ==>
                && reply.value.handle == handle && reply.value.token == token
                && (reply.value.answer == NotFound <==> !f.symbolExists)
                && (reply.value.answer == NotEntitled <==> f.symbolExists && !f.entitled)
                && (reply.value.answer == InternalError <==> f.symbolExists && f.entitled && !(f.calculated && f.written))
                && (reply.value.answer == Payload <==> f.symbolExists && f.entitled && f.calculated && f.written)
    {
      var answer := Payload;
      if !f.symbolExists {
        answer := NotFound;
      } else if !f.entitled {
        answer := NotEntitled;
      } else if !f.calculated {
        answer := InternalError;
      } else if !f.written {
        answer := InternalError;
      }
      if answer != Payload && !f.closeWritten {
        return false, None;
      }
      if !f.sent {
        return false, None;
      }
      return true, Some(Reply(handle, token, answer));
    }
  }

  /** The components the worker reads lie in the URL, and the path is there. */
  lemma Inside(itemName: string)
    ensures var url := PREFIX + itemName; var p := StandardURL(url);
            && p.path.IsValid() && Within(p.path, 0, |url|) && Within(p.query, 0, |url|) && Within(p.ref, 0, |url|)
  {
    var url := PREFIX + itemName;
    var slashes := Lossless(url);
    var p := StandardURL(url);
    assert p.path in Components(p) && p.query in Components(p) && p.ref in Components(p);
    PathIs(itemName);
  }

  lemma DecomposedParts(itemName: string)
    ensures var url := PREFIX + itemName; var p := StandardURL(url); var name := FileName(url, p.path);
            && Within(p.path, 0, |url|) && Within(p.query, 0, |url|) && Within(p.ref, 0, |url|)
            && name.IsValid() && Decomposed(itemName) == Item(Text(url, name), Optional(url, p.query), Optional(url, p.ref))
  {
    Inside(itemName);
    DecomposedIs(itemName);
    hide StandardURL, FileName, PREFIX, MarksOf, ItemAt;
  }
}
