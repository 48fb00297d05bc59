/**
 * `configuration.rs` and `build_config`: the `config!` input, a
 * comma-separated list of `key: "value"` entries naming the application id,
 * the sync server endpoint and the database's directory and file. Any other
 * key makes the whole input an error.
 */
module Configuration {
  import opened Wrappers
  import opened Tokens
  import opened Scan
  import opened Entries

  /** `ParsedConfig`: each field stays `None` until an entry sets it. */
  datatype Config = Config(
    appId: Option<string>,
    syncServerEndpoint: Option<string>,
    databaseDirectoryName: Option<string>,
    databaseFileName: Option<string>)

  const Empty := Config(None, None, None, None)

  const Keys: set<string> := {"app_id", "sync_server_endpoint", "database_directory_name", "database_file_name"}

  /** `KeyValue::parse`: an identifier, `:` and a string literal. */
  function ParseKeyValue(ts: seq<Token>): (r: Result<Parsed<KeyValue>, Error>)
    ensures r.Ok? <==> |ts| >= 3 && IsPlainIdent(ts[0]) && ts[1] == Punct(':') && ts[2].Str?
    ensures r.Ok? ==> r.value == Parsed(KeyValue(ts[0].name, ts[2].value), 3)
  {
    if |ts| == 0 || !IsPlainIdent(ts[0]) then Err(Message("should have property keys"))
    else if |ts| < 2 || ts[1] != Punct(':') then Err(Message("prop name and value should be separated by :"))
    else if |ts| < 3 || !ts[2].Str? then Err(Message("Value should be here"))
    else Ok(Parsed(KeyValue(ts[0].name, ts[2].value), 3))
  }

  /** `Punctuated::<KeyValue, Token![,]>::parse_terminated` over the whole input. */
  function KeyValues(ts: seq<Token>): (r: Result<seq<KeyValue>, Error>)
    decreases |ts|
  {
    if ts == [] then Ok([])
    else match ParseKeyValue(ts)
      case Err(e) => Err(e)
      case Ok(kv) =>
        var rest := ts[kv.n..];
        if rest == [] then Ok([kv.value])
        else if rest[0] != Punct(',') then Err(Message("expected `,`"))
        else match KeyValues(rest[1..])
          case Err(e) => Err(e)
          case Ok(more) => Ok([kv.value] + more)
  }

  /** Whether some entry has a key other than the four known ones. */
  predicate HasUnknown(kvs: seq<KeyValue>) {
    exists i :: 0 <= i < |kvs| && kvs[i].key !in Keys
  }

  /** The configuration the entries describe: each field is the last entry for its key. */
  function Described(kvs: seq<KeyValue>): Config {
    Config(Lookup(kvs, "app_id"), Lookup(kvs, "sync_server_endpoint"),
      Lookup(kvs, "database_directory_name"), Lookup(kvs, "database_file_name"))
  }

  /** `ParsedConfig::parse`: the entries, refused as a whole when one has an unknown key. */
  function Parse(ts: seq<Token>): (r: Result<Config, Error>)
  {
    match KeyValues(ts)
    case Err(e) => Err(e)
    case Ok(kvs) =>
      if HasUnknown(kvs) then Err(Message("You put (an) invalid attribute(s)")) else Ok(Described(kvs))
  }

  /** One step of the `for_each`: a known key sets its field, any other raises the error flag. */
  method Apply(c: Config, flag: bool, kv: KeyValue) returns (c': Config, flag': bool)
    ensures flag' <==> flag || kv.key !in Keys
    ensures c' == Config(
      if kv.key == "app_id" then Some(kv.value) else c.appId,
      if kv.key == "sync_server_endpoint" then Some(kv.value) else c.syncServerEndpoint,
      if kv.key == "database_directory_name" then Some(kv.value) else c.databaseDirectoryName,
      if kv.key == "database_file_name" then Some(kv.value) else c.databaseFileName)
  {
    c', flag' := c, flag;
    match kv.key
    case "app_id" => c' := c.(appId := Some(kv.value));
    case "sync_server_endpoint" => c' := c.(syncServerEndpoint := Some(kv.value));
    case "database_directory_name" => c' := c.(databaseDirectoryName := Some(kv.value));
    case "database_file_name" => c' := c.(databaseFileName := Some(kv.value));
    case _ => flag' := true;
  }

  /** The entries of a prefix one longer. */
  lemma DescribedStep(kvs: seq<KeyValue>, i: nat)
    requires i < |kvs|
    ensures var d := Described(kvs[..i]); Described(kvs[..i + 1]) == Config(
      if kvs[i].key == "app_id" then Some(kvs[i].value) else d.appId,
      if kvs[i].key == "sync_server_endpoint" then Some(kvs[i].value) else d.syncServerEndpoint,
      if kvs[i].key == "database_directory_name" then Some(kvs[i].value) else d.databaseDirectoryName,
      if kvs[i].key == "database_file_name" then Some(kvs[i].value) else d.databaseFileName)
  {
    assert kvs[..i + 1][..i] == kvs[..i];
  }

  /** The `for_each` over the entries with the `has_error_attribute` flag. */
  method ApplyAll(kvs: seq<KeyValue>) returns (c: Config, hasError: bool)
    ensures hasError <==> HasUnknown(kvs)
    ensures c == Described(kvs)
  {
    c, hasError := Empty, false;
    for i := 0 to |kvs|
      invariant hasError <==> HasUnknown(kvs[..i])
      invariant c == Described(kvs[..i])
    {
      DescribedStep(kvs, i);
      c, hasError := Apply(c, hasError, kvs[i]);
      assert kvs[..i + 1][i] == kvs[i];
      assert forall j :: 0 <= j < i ==> kvs[..i + 1][j] == kvs[..i][j];
    }
    assert kvs[..|kvs|] == kvs;
  }

  /** `ParsedConfig::parse` as written: the entries, the loop, then the flag. */
  method ParseConfig(ts: seq<Token>) returns (r: Result<Config, Error>)
    ensures r == Parse(ts)
  {
    var kvs := KeyValues(ts);
    if kvs.Err? {
      return Err(kvs.error);
    }
    var c, hasError := ApplyAll(kvs.value);
    if hasError {
      return Err(Message("You put (an) invalid attribute(s)"));
    }
    return Ok(c);
  }

  function OrEmpty(o: Option<string>): string {
    if o.Some? then o.value else ""
  }

  /** `build_config`: each setting, the empty string where the input gave none. */
  function Settings(c: Config): (string, string, string, string) {
    (OrEmpty(c.appId), OrEmpty(c.syncServerEndpoint), OrEmpty(c.databaseDirectoryName), OrEmpty(c.databaseFileName))
  }

  // ---- the input that writes given entries ----

  /** `key: "value", …` without a trailing comma. */
  function Print(kvs: seq<KeyValue>): seq<Token>
    decreases |kvs|
  {
    if kvs == [] then []
    else [Ident(kvs[0].key), Punct(':'), Str(kvs[0].value)] + (if |kvs| == 1 then [] else [Punct(',')] + Print(kvs[1..]))
  }

  function After(kvs: seq<KeyValue>, tail: seq<Token>): seq<Token>
    requires kvs != []
  {
    (if |kvs| == 1 then [] else [Punct(',')] + Print(kvs[1..])) + tail
  }

  lemma Assoc(a: seq<Token>, b: seq<Token>, c: seq<Token>)
    ensures (a + b) + c == a + (b + c)
  {
  }

  lemma PrintSplit(kvs: seq<KeyValue>, tail: seq<Token>)
    requires kvs != []
    ensures Print(kvs) + tail == [Ident(kvs[0].key), Punct(':'), Str(kvs[0].value)] + After(kvs, tail)
    ensures |kvs| > 1 ==> After(kvs, tail)[0] == Punct(',') && After(kvs, tail)[1..] == Print(kvs[1..]) + tail
    ensures |kvs| == 1 ==> After(kvs, tail) == tail
  {
    var x := [Ident(kvs[0].key), Punct(':'), Str(kvs[0].value)];
    var y := if |kvs| == 1 then [] else [Punct(',')] + Print(kvs[1..]);
    assert Print(kvs) == x + y;
    Assoc(x, y, tail);
    if |kvs| > 1 {
      Assoc([Punct(',')], Print(kvs[1..]), tail);
    } else {
      assert y + tail == tail;
    }
  }

  lemma EntryCons(kv: KeyValue, after: seq<Token>)
    requires IsPlainIdent(Ident(kv.key))
    ensures after == [] ==> KeyValues([Ident(kv.key), Punct(':'), Str(kv.value)] + after) == Ok([kv])
    ensures after != [] && after[0] == Punct(',') && KeyValues(after[1..]).Ok? ==>
      KeyValues([Ident(kv.key), Punct(':'), Str(kv.value)] + after) == Ok([kv] + KeyValues(after[1..]).value)
  {
    var ts := [Ident(kv.key), Punct(':'), Str(kv.value)] + after;
    assert ts[0] == Ident(kv.key) && ts[1] == Punct(':') && ts[2] == Str(kv.value) && ts[3..] == after;
  }

  /** Entries with plain-identifier keys read back from their print, with or without a trailing comma. */
  lemma {:induction false} PrintedEntries(kvs: seq<KeyValue>, tail: seq<Token>)
    requires forall i :: 0 <= i < |kvs| ==> IsPlainIdent(Ident(kvs[i].key))
    requires tail == [] || (kvs != [] && tail == [Punct(',')])
    ensures KeyValues(Print(kvs) + tail) == Ok(kvs)
    decreases |kvs|
  {
    if kvs == [] {
      assert Print(kvs) + tail == [];
    } else {
      var after := After(kvs, tail);
      PrintSplit(kvs, tail);
      EntryCons(kvs[0], after);
      if |kvs| > 1 {
        PrintedEntries(kvs[1..], tail);
        assert kvs == [kvs[0]] + kvs[1..];
      } else if tail != [] {
        assert after[1..] == [];
        assert KeyValues(after[1..]) == Ok([]);
        assert kvs == [kvs[0]] + [];
      } else {
        assert after == [] && kvs == [kvs[0]];
      }
    }
  }

  /** The four keys are plain identifiers. */
  lemma KeysPlain(k: string)
    requires k in Keys
    ensures IsPlainIdent(Ident(k))
  {
    if k == "app_id" {
      PlainName(k);
    } else if k == "sync_server_endpoint" {
      PlainName(k);
    } else if k == "database_directory_name" {
      PlainName(k);
    } else {
      PlainName("database_file_name");
    }
  }

  /** Known keys in any order and number give the configuration they describe. */
  lemma PrintedConfig(kvs: seq<KeyValue>, tail: seq<Token>)
    requires forall i :: 0 <= i < |kvs| ==> kvs[i].key in Keys
    requires tail == [] || (kvs != [] && tail == [Punct(',')])
    ensures Parse(Print(kvs) + tail) == Ok(Described(kvs))
  {
    forall i | 0 <= i < |kvs|
      ensures IsPlainIdent(Ident(kvs[i].key))
    {
      KeysPlain(kvs[i].key);
    }
    PrintedEntries(kvs, tail);
  }

  /** One unknown key among well-formed entries refuses the whole input. */
  lemma {:induction false} UnknownRefused(kvs: seq<KeyValue>)
    requires forall j :: 0 <= j < |kvs| ==> IsPlainIdent(Ident(kvs[j].key))
    requires HasUnknown(kvs)
    ensures Parse(Print(kvs)) == Err(Message("You put (an) invalid attribute(s)"))
  {
    PrintedRead(kvs);
  }

  lemma {:induction false} PrintedRead(kvs: seq<KeyValue>)
    requires forall j :: 0 <= j < |kvs| ==> IsPlainIdent(Ident(kvs[j].key))
    ensures KeyValues(Print(kvs)) == Ok(kvs)
  {
    PrintedEntries(kvs, []);
    assert Print(kvs) + [] == Print(kvs);
  }

  /** Parsing accepts exactly the entry lists with known keys only. */
  lemma ParseOk(ts: seq<Token>)
    ensures Parse(ts).Ok? <==> KeyValues(ts).Ok? && !HasUnknown(KeyValues(ts).value)
  {
  }

  /** An empty `config!` leaves every setting empty. */
  lemma EmptyInput()
    ensures Parse([]) == Ok(Empty)
    ensures Settings(Empty) == ("", "", "", "")
  {
  }

  /** An entry repeated later wins. */
  lemma LaterWins(kvs: seq<KeyValue>, a: string, b: string)
    ensures Described([KeyValue("app_id", a)] + kvs + [KeyValue("app_id", b)]).appId == Some(b)
  {
    var all := [KeyValue("app_id", a)] + kvs + [KeyValue("app_id", b)];
    LookupLast(all, |all| - 1);
  }
}
