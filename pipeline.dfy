/** The three self-contained pieces of the warrior pipeline: the `CheckIP`
    task that occasionally checks for a firewall or proxy, the naming done
    by `PrepareDirectories`, and the argument list `CustomProcessArgs`
    builds for the discovery script.

    An item is the pipeline's dictionary of named strings; looking up a
    missing name raises `KeyError`. DNS lookups are an oracle `dns`. */
module Pipeline {
  import opened Wrappers
  import PyStr

  /** The exceptions these pieces raise. */
  datatype Error =
    | KeyError(key: string)                 // an item field that is not set
    | UnpackError                           // `a, b = s.split(sep, 1)` with no `sep` in `s`
    | UnhandledItemType(itemType: string)   // ValueError('unhandled item type: ...')
    | BehindProxy                           // 'Are you behind a firewall/proxy? ...'

  type Fields = map<string, string>

  /** A pipeline item: its fields are updated in place by the tasks. */
  class Item {
    var fields: Fields

    constructor (fields: Fields)
      ensures this.fields == fields
    {
      this.fields := fields;
    }
  }

  // ---------------------------------------------------------------------
  // CheckIP

  /** The six host names `CheckIP` resolves. */
  const Hosts: seq<string> :=
    ["twitter.com", "facebook.com", "youtube.com", "microsoft.com",
     "icanhas.cheezburger.com", "archiveteam.org"]

  /** `socket.gethostbyname`, as an oracle from host name to address. */
  type Dns = string -> string

  /** The addresses the six lookups return, in lookup order. */
  function Lookups(dns: Dns): (r: seq<string>)
    ensures |r| == |Hosts| && forall i :: 0 <= i < |Hosts| ==> r[i] == dns(Hosts[i])
  {
    [dns(Hosts[0]), dns(Hosts[1]), dns(Hosts[2]), dns(Hosts[3]), dns(Hosts[4]), dns(Hosts[5])]
  }

  function SetOf(s: seq<string>): set<string>
  {
    set x | x in s
  }

  predicate NoDuplicates(s: seq<string>)
  {
    forall i, j :: 0 <= i < j < |s| ==> s[i] != s[j]
  }

  /** A sequence has as many distinct elements as it is long exactly when
      no element occurs twice. */
  lemma {:induction false} SetOfSize(s: seq<string>)
    ensures |SetOf(s)| <= |s|
    ensures |SetOf(s)| == |s| <==> NoDuplicates(s)
  {
    if s != [] {
      var u, x := s[..|s| - 1], s[|s| - 1];
      SetOfSize(u);
      assert s == u + [x];
      assert SetOf(s) == SetOf(u) + {x};
      if x in SetOf(u) {
        var i :| 0 <= i < |u| && u[i] == x;
        assert s[i] == s[|s| - 1];
      } else {
        assert NoDuplicates(s) <==> NoDuplicates(u) by {
          if NoDuplicates(u) {
            forall i, j | 0 <= i < j < |s| ensures s[i] != s[j] {
              if j == |s| - 1 {
                assert u[i] in SetOf(u);
              } else {
                assert s[i] == u[i] && s[j] == u[j];
              }
            }
          }
        }
      }
    }
  }

  /** Adding the six addresses one by one gives the set of the lookups. */
  lemma LookupsSet(dns: Dns)
    ensures {} + {dns(Hosts[0])} + {dns(Hosts[1])} + {dns(Hosts[2])} + {dns(Hosts[3])}
               + {dns(Hosts[4])} + {dns(Hosts[5])} == SetOf(Lookups(dns))
  {
    var r := Lookups(dns);
    assert forall x :: x in r <==> x == r[0] || x == r[1] || x == r[2] || x == r[3] || x == r[4] || x == r[5];
  }

  /** `CheckIP` raises exactly when two of the six hosts resolve to the
      same address. */
  lemma BehindProxyIff(dns: Dns)
    ensures |SetOf(Lookups(dns))| != 6 <==>
      exists i, j :: 0 <= i < j < |Hosts| && dns(Hosts[i]) == dns(Hosts[j])
  {
    var r := Lookups(dns);
    SetOfSize(r);
    if !NoDuplicates(r) {
      var i, j :| 0 <= i < j < |r| && r[i] == r[j];
      assert dns(Hosts[i]) == dns(Hosts[j]);
    }
  }

  /** One step of the throttle: after a check the counter is reset to 10,
      otherwise it counts down. */
  function Tick(counter: int): (c: int)
    ensures counter <= 0 ==> c == 10
    ensures 0 <= counter <= 10 ==> 0 <= c <= 10
    ensures c <= 0 <==> counter == 1
  {
    if counter <= 0 then 10 else counter - 1
  }

  /** `_counter` after `calls` completed calls of `process`, starting at 0. */
  function CounterAfter(calls: nat): (c: int)
    ensures 0 <= c <= 10
  {
    if calls == 0 then 0 else Tick(CounterAfter(calls - 1))
  }

  /** After 11q + r calls the counter is 0 when r is 0 and 11 - r otherwise. */
  lemma {:induction false} CounterPeriodic(q: nat, r: nat)
    requires r < 11
    ensures CounterAfter(11 * q + r) == if r == 0 then 0 else 11 - r
    decreases q, r
  {
    if r > 0 {
      CounterPeriodic(q, r - 1);
    } else if q > 0 {
      CounterPeriodic(q - 1, 10);
    }
  }

  /** The counter runs 0, 10, 9, ..., 1, 0, 10, ...: the check is made on
      the 1st, 12th, 23rd, ... call. */
  lemma CounterCycle(calls: nat)
    ensures CounterAfter(calls) <= 0 <==> calls % 11 == 0
  {
    CounterPeriodic(calls / 11, calls % 11);
  }

  /** The `CheckIP` task. */
  class CheckIP {
    var counter: int
    /** The number of `process` calls that returned normally. */
    ghost var calls: nat

    ghost predicate Valid()
      reads this
    {
      counter == CounterAfter(calls)
    }

    constructor ()
      ensures Valid() && calls == 0 && counter == 0
    {
      counter := 0;
      calls := 0;
    }

    /** `process`: whether the addresses were checked, and the exception
        raised. A failed check raises before the counter is touched, so the
        next call checks again. */
    method Process(dns: Dns) returns (checked: bool, error: Option<Error>)
      requires Valid()
      modifies this
      ensures Valid() && 0 <= counter <= 10
      ensures checked <==> old(counter) <= 0
      ensures checked <==> old(calls) % 11 == 0
      ensures error.Some? <==> checked && |SetOf(Lookups(dns))| != 6
      ensures error.Some? ==> error.value == BehindProxy && counter == old(counter) && calls == old(calls)
      ensures error.None? ==> counter == Tick(old(counter)) && calls == old(calls) + 1
    {
      checked := counter <= 0;
      assert checked <==> calls % 11 == 0 by {
        CounterCycle(calls);
      }
      if counter <= 0 {
        var ipSet: set<string> := {};
        ipSet := ipSet + {dns(Hosts[0])};  // twitter.com
        ipSet := ipSet + {dns(Hosts[1])};  // facebook.com
        ipSet := ipSet + {dns(Hosts[2])};  // youtube.com
        ipSet := ipSet + {dns(Hosts[3])};  // microsoft.com
        ipSet := ipSet + {dns(Hosts[4])};  // icanhas.cheezburger.com
        ipSet := ipSet + {dns(Hosts[5])};  // archiveteam.org
        LookupsSet(dns);
        if |ipSet| != 6 {
          return checked, Some(BehindProxy);
        }
      }
      if counter <= 0 {
        counter := 10;
      } else {
        counter := counter - 1;
      }
      calls := calls + 1;
      error := None;
    }
  }

  // ---------------------------------------------------------------------
  // PrepareDirectories

  /** `warc_file_base`: the prefix, the item name with every ':' made '_',
      and the timestamp, joined by '-'. */
  function WarcFileBase(prefix: string, itemName: string, timestamp: string): (r: string)
    ensures |r| == |prefix| + |itemName| + |timestamp| + 2
    ensures r[..|prefix|] == prefix && r[|prefix|] == '-'
    ensures forall i :: 0 <= i < |itemName| ==>
      r[|prefix| + 1 + i] == if itemName[i] == ':' then '_' else itemName[i]
    ensures r[|prefix| + 1 + |itemName|] == '-'
    ensures r[|prefix| + |itemName| + 2..] == timestamp
    ensures ':' !in prefix && ':' !in timestamp ==> ':' !in r
  {
    var name := PyStr.ReplaceChar(itemName, ':', '_');
    assert (prefix + "-" + name + "-" + timestamp)[|prefix| + |itemName| + 2..] == timestamp;
    prefix + "-" + name + "-" + timestamp
  }

  /** The fields `PrepareDirectories.process` sets: `item_dir` is the data
      directory joined with the item name, and `warc_file_base` as above. */
  function Prepare(fields: Fields, prefix: string, timestamp: string): (r: Result<Fields, Error>)
    ensures "item_name" !in fields ==> r == Failure(KeyError("item_name"))
    ensures "item_name" in fields && "data_dir" !in fields ==> r == Failure(KeyError("data_dir"))
    ensures r.Failure? <==> "item_name" !in fields || "data_dir" !in fields
    ensures r.Success? ==>
      r.value.Keys == fields.Keys + {"item_dir", "warc_file_base"} &&
      r.value["item_dir"] == fields["data_dir"] + "/" + fields["item_name"] &&
      r.value["warc_file_base"] == WarcFileBase(prefix, fields["item_name"], timestamp) &&
      forall k :: k in fields && k != "item_dir" && k != "warc_file_base" ==> r.value[k] == fields[k]
  {
    if "item_name" !in fields then Failure(KeyError("item_name"))
    else if "data_dir" !in fields then Failure(KeyError("data_dir"))
    else
      var itemName := fields["item_name"];
      Success(fields["item_dir" := fields["data_dir"] + "/" + itemName]
                    ["warc_file_base" := WarcFileBase(prefix, itemName, timestamp)])
  }

  /** The `PrepareDirectories` task; the directory and file operations are
      not modelled, only the fields it sets on the item. */
  class PrepareDirectories {
    const warcPrefix: string

    constructor (warcPrefix: string)
      ensures this.warcPrefix == warcPrefix
    {
      this.warcPrefix := warcPrefix;
    }

    method Process(item: Item, timestamp: string) returns (error: Option<Error>)
      modifies item
      ensures var r := Prepare(old(item.fields), warcPrefix, timestamp);
        (r.Success? ==> error.None? && item.fields == r.value) &&
        (r.Failure? ==> error == Some(r.error) && item.fields == old(item.fields))
    {
      if "item_name" !in item.fields {
        return Some(KeyError("item_name"));
      }
      var itemName := item.fields["item_name"];
      if "data_dir" !in item.fields {
        return Some(KeyError("data_dir"));
      }
      var dirname := item.fields["data_dir"] + "/" + itemName;
      item.fields := item.fields["item_dir" := dirname];
      item.fields := item.fields["warc_file_base" := WarcFileBase(warcPrefix, itemName, timestamp)];
      error := None;
    }
  }

  // ---------------------------------------------------------------------
  // CustomProcessArgs

  /** The two unpackings `realize` does on the item name: `page:<start>-<end>`
      gives the two bound strings. The type is the part before the FIRST ':'
      and the start the part before the FIRST '-' of the rest. */
  function PageRange(itemName: string): (r: Result<(string, string), Error>)
    ensures ':' !in itemName ==> r == Failure(UnpackError)
    ensures r.Success? ==>
      itemName == "page:" + r.value.0 + "-" + r.value.1 && '-' !in r.value.0
  {
    match PyStr.SplitOnce(itemName, ':')
    case None => Failure(UnpackError)
    case Some((itemType, itemValue)) =>
      if itemType != "page" then Failure(UnhandledItemType(itemType))
      else match PyStr.SplitOnce(itemValue, '-')
        case None => Failure(UnpackError)
        case Some((startNum, endNum)) =>
          assert itemName == "page" + [':'] + itemValue;
          assert "page" + [':'] == "page:" && ['-'] == "-";
          assert "page:" + (startNum + "-" + endNum) == "page:" + startNum + "-" + endNum;
          Success((startNum, endNum))
  }

  /** The interpreter and the script the command line runs. */
  const Interpreter: string := "python"
  const Script: string := "discover.py"

  /** `CustomProcessArgs.realize`: `page:<start>-<end>` becomes the command
      line of the discovery script, writing to the item's `.txt.gz` file. */
  function Realize(fields: Fields): (r: Result<seq<string>, Error>)
    ensures "item_name" !in fields ==> r == Failure(KeyError("item_name"))
    ensures "item_name" in fields && ':' !in fields["item_name"] ==> r == Failure(UnpackError)
  {
    if "item_name" !in fields then Failure(KeyError("item_name"))
    else
      var range := PageRange(fields["item_name"]);
      if range.Failure? then Failure(range.error)
      else if "item_dir" !in fields then Failure(KeyError("item_dir"))
      else if "warc_file_base" !in fields then Failure(KeyError("warc_file_base"))
      else Success([Interpreter, Script, range.value.0, range.value.1,
                    fields["item_dir"] + "/" + fields["warc_file_base"] + ".txt.gz"])
  }

  /** Whenever `realize` returns, the item was `page:<start>-<end>` with no
      '-' in `<start>`, and the command line runs the discovery script on
      those two strings, writing into the item's directory. */
  lemma RealizeSucceeds(fields: Fields)
    ensures Realize(fields).Success? ==>
      "item_name" in fields && "item_dir" in fields && "warc_file_base" in fields &&
      PageRange(fields["item_name"]).Success? &&
      var (startNum, endNum) := PageRange(fields["item_name"]).value;
      fields["item_name"] == "page:" + startNum + "-" + endNum && '-' !in startNum &&
      Realize(fields) == Success([Interpreter, Script, startNum, endNum,
                                  fields["item_dir"] + "/" + fields["warc_file_base"] + ".txt.gz"])
  {
  }

  /** A page item yields the script's command line, with the range bounds
      passed on as the strings they are: the start is cut at the first '-'
      of the value, and the value may hold further ':' and '-'. */
  lemma RealizePage(fields: Fields, startNum: string, endNum: string)
    requires "item_name" in fields && fields["item_name"] == "page:" + startNum + "-" + endNum
    requires '-' !in startNum
    requires "item_dir" in fields && "warc_file_base" in fields
    ensures Realize(fields) == Success([Interpreter, Script, startNum, endNum,
                                        fields["item_dir"] + "/" + fields["warc_file_base"] + ".txt.gz"])
  {
    assert fields["item_name"] == "page" + [':'] + (startNum + "-" + endNum);
    PyStr.SplitOnceOfJoin("page", ':', startNum + "-" + endNum);
    assert startNum + "-" + endNum == startNum + ['-'] + endNum;
    PyStr.SplitOnceOfJoin(startNum, '-', endNum);
  }

  /** Any item type other than `page` raises ValueError. */
  lemma RealizeOtherType(fields: Fields, itemType: string, itemValue: string)
    requires "item_name" in fields && fields["item_name"] == itemType + ":" + itemValue
    requires ':' !in itemType && itemType != "page"
    ensures Realize(fields) == Failure(UnhandledItemType(itemType))
  {
    assert itemType + ":" + itemValue == itemType + [':'] + itemValue;
    PyStr.SplitOnceOfJoin(itemType, ':', itemValue);
  }

  /** A page value without '-' fails the second unpacking. */
  lemma RealizePageWithoutDash(fields: Fields, itemValue: string)
    requires "item_name" in fields && fields["item_name"] == "page:" + itemValue
    requires '-' !in itemValue
    ensures Realize(fields) == Failure(UnpackError)
  {
    assert "page:" + itemValue == "page" + [':'] + itemValue;
    PyStr.SplitOnceOfJoin("page", ':', itemValue);
  }

  /** The two tasks in pipeline order: after `PrepareDirectories`, a page
      item's command line writes into the item's own directory, to a file
      named by the prefix, the item name and the timestamp. */
  lemma PreparedPageArgs(fields: Fields, prefix: string, timestamp: string, startNum: string, endNum: string)
    requires "item_name" in fields && fields["item_name"] == "page:" + startNum + "-" + endNum
    requires '-' !in startNum
    requires "data_dir" in fields
    ensures var prepared := Prepare(fields, prefix, timestamp);
      prepared.Success? &&
      Realize(prepared.value) ==
        Success([Interpreter, Script, startNum, endNum,
                 fields["data_dir"] + "/" + fields["item_name"] + "/" +
                 WarcFileBase(prefix, fields["item_name"], timestamp) + ".txt.gz"])
  {
    var prepared := Prepare(fields, prefix, timestamp).value;
    RealizePage(prepared, startNum, endNum);
  }


}
