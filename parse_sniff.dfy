/**
  The batch transform of parse_sniff: a host-info index keyed by endpoint,
  a join of every sniff record against it, and the classification of each
  record's SQL by its leading keyword.

  JSON decoding is not modelled: the inputs are the records that decoding
  produced, and a line that failed to decode is the zero record of its type.
  The external SQL normalizer is the parameter `normalize`.
 */
module ParseSniff {
  import opened Wrappers
  import opened Decimal
  import opened Whitespace

  /** Go's int on a 64-bit platform. */
  type GoInt = x: int | -0x8000_0000_0000_0000 <= x < 0x8000_0000_0000_0000

  /** One line of the sniff log. */
  datatype SniffEntry = SniffEntry(cip: string, cport: GoInt, user: string, db: string, sql: string, cus: GoInt)

  /** One line of the host-info file: a connection's endpoint and identity. */
  datatype HostInfo = HostInfo(host: string, id: GoInt, user: string, db: string)

  /** One line of the enriched output. */
  datatype OutputEntry = OutputEntry(
    connectionId: string, queryTime: GoInt, sql: string, rowsSent: GoInt,
    username: string, dbName: string, sqlType: string)

  /** The identifier reported for a record whose endpoint is not in the index. */
  const UnmatchedId: GoInt := 99999

  /** What a host-info line that fails to decode leaves behind. */
  const ZeroHostInfo := HostInfo("", 0, "", "")

  /** What a sniff line that fails to decode leaves behind. */
  const ZeroSniffEntry := SniffEntry("", 0, "", "", "", 0)

  type HostIndex = map<string, HostInfo>

  // ---------------------------------------------------------------------
  // Host index

  /** The index after inserting every record of infos in order; a later insert overwrites. */
  function HostIndexOf(infos: seq<HostInfo>): HostIndex
    decreases |infos|
  {
    if infos == [] then map[]
    else
      var last := infos[|infos| - 1];
      HostIndexOf(infos[..|infos| - 1])[last.host := last]
  }

  /** The endpoints named by infos. */
  function Hosts(infos: seq<HostInfo>): set<string> {
    set i | 0 <= i < |infos| :: infos[i].host
  }

  /** infos[i] is the last record of infos whose endpoint is key. */
  predicate LatestFor(infos: seq<HostInfo>, i: int, key: string) {
    && 0 <= i < |infos|
    && infos[i].host == key
    && forall j :: i < j < |infos| ==> infos[j].host != key
  }

  /** readHostInfo, once the file is decoded: insert every record under its endpoint. */
  method BuildHostIndex(infos: seq<HostInfo>) returns (index: HostIndex)
    ensures index == HostIndexOf(infos)
    ensures index.Keys == Hosts(infos)
  {
    index := map[];
    var i := 0;
    while i < |infos|
      invariant 0 <= i <= |infos|
      invariant index == HostIndexOf(infos[..i])
    {
      assert infos[..i + 1][..i] == infos[..i];
      index := index[infos[i].host := infos[i]];
      i := i + 1;
    }
    assert infos[..i] == infos;
    HostIndexKeys(infos);
  }

  /** The index holds exactly the endpoints of the input records. */
  lemma {:induction false} HostIndexKeys(infos: seq<HostInfo>)
    ensures HostIndexOf(infos).Keys == Hosts(infos)
    decreases |infos|
  {
    if infos != [] {
      var init := infos[..|infos| - 1];
      HostIndexKeys(init);
      assert Hosts(infos) == Hosts(init) + {infos[|infos| - 1].host} by {
        forall h | h in Hosts(infos) ensures h in Hosts(init) + {infos[|infos| - 1].host} {
          var i :| 0 <= i < |infos| && infos[i].host == h;
          if i < |infos| - 1 {
            assert init[i] == infos[i];
          }
        }
        forall h | h in Hosts(init) ensures h in Hosts(infos) {
          var i :| 0 <= i < |init| && init[i].host == h;
          assert infos[i] == init[i];
        }
      }
    }
  }

  /** Last write wins: the index maps an endpoint to the last record that names it. */
  lemma {:induction false} HostIndexLastWins(infos: seq<HostInfo>, i: int, key: string)
    requires LatestFor(infos, i, key)
    ensures key in HostIndexOf(infos) && HostIndexOf(infos)[key] == infos[i]
    decreases |infos|
  {
    var n := |infos| - 1;
    if i < n {
      var init := infos[..n];
      assert infos[n].host != key;
      assert LatestFor(init, i, key) by {
        forall j | i < j < |init| ensures init[j].host != key {
          assert init[j] == infos[j];
        }
      }
      HostIndexLastWins(init, i, key);
    }
  }

  /** Every entry of the index is the last input record that names its endpoint. */
  lemma {:induction false} HostIndexEntryIsLatest(infos: seq<HostInfo>, key: string)
    requires key in HostIndexOf(infos)
    ensures exists i :: LatestFor(infos, i, key) && HostIndexOf(infos)[key] == infos[i]
    decreases |infos|
  {
    var n := |infos| - 1;
    if infos[n].host == key {
      assert LatestFor(infos, n, key);
    } else {
      var init := infos[..n];
      HostIndexEntryIsLatest(init, key);
      var i :| LatestFor(init, i, key) && HostIndexOf(init)[key] == init[i];
      assert infos[i] == init[i];
      assert LatestFor(infos, i, key) by {
        forall j | i < j < |infos| ensures infos[j].host != key {
          if j < n {
            assert infos[j] == init[j];
          }
        }
      }
    }
  }

  /** A host-info line that failed to decode, and is the last with an empty endpoint, is found under "". */
  lemma MalformedHostLineIndexed(infos: seq<HostInfo>, i: int)
    requires 0 <= i < |infos| && infos[i] == ZeroHostInfo
    requires forall j :: i < j < |infos| ==> infos[j].host != ""
    ensures "" in HostIndexOf(infos)
    ensures HostIndexOf(infos)[""].id == 0 && HostIndexOf(infos)[""].user == "" && HostIndexOf(infos)[""].db == ""
  {
    HostIndexLastWins(infos, i, "");
  }

  // ---------------------------------------------------------------------
  // The join

  /** fmt.Sprintf("%s:%d", cip, cport): the lookup key of a sniff record. */
  function EndpointKey(cip: string, port: GoInt): string {
    cip + ":" + DecimalString(port)
  }

  /**
    The key is the client address, a colon, then the %d text of the port: the
    one canonical digit string that reads back as the port.
   */
  lemma EndpointKeySplits(cip: string, port: GoInt)
    ensures var key := EndpointKey(cip, port);
      && |key| > |cip| && key[..|cip|] == cip && key[|cip|] == ':'
      && key[|cip| + 1..] == DecimalString(port)
      && Canonical(key[|cip| + 1..])
      && ParseDecimal(key[|cip| + 1..]) == Some(port as int)
  {
    var key := EndpointKey(cip, port);
    assert key[|cip| + 1..] == DecimalString(port);
    DecimalRoundTrip(port);
  }

  /** The position of the last colon of s, or -1 when it has none. */
  function LastColon(s: string): (p: int)
    ensures -1 <= p < |s|
    decreases |s|
  {
    if s == [] then -1
    else if s[|s| - 1] == ':' then |s| - 1
    else LastColon(s[..|s| - 1])
  }

  /** A colon followed by colon-free text is the last colon. */
  lemma {:induction false} LastColonBeforeSuffix(a: string, d: string)
    requires forall k :: 0 <= k < |d| ==> d[k] != ':'
    ensures LastColon(a + ":" + d) == |a|
    decreases |d|
  {
    if d != [] {
      var d' := d[..|d| - 1];
      assert (a + ":" + d)[..|a + ":" + d| - 1] == a + ":" + d';
      LastColonBeforeSuffix(a, d');
    }
  }

  /**
    The key determines the address and the port, even for an address that
    itself holds colons (IPv6), because the rendered port holds none.
   */
  lemma EndpointKeyInjective(cip1: string, port1: GoInt, cip2: string, port2: GoInt)
    requires EndpointKey(cip1, port1) == EndpointKey(cip2, port2)
    ensures cip1 == cip2 && port1 == port2
  {
    var key := EndpointKey(cip1, port1);
    var d1, d2 := DecimalString(port1), DecimalString(port2);
    assert forall k :: 0 <= k < |d1| ==> d1[k] == '-' || IsDigit(d1[k]);
    assert forall k :: 0 <= k < |d2| ==> d2[k] == '-' || IsDigit(d2[k]);
    assert key == cip1 + ":" + d1 && key == cip2 + ":" + d2;
    LastColonBeforeSuffix(cip1, d1);
    LastColonBeforeSuffix(cip2, d2);
    assert cip1 == key[..|cip1|] == cip2;
    assert d1 == key[|cip1| + 1..] == d2;
    DecimalInjective(port1, port2);
  }

  /** getSQLType: the first word of the normalized SQL, or "other" when it has none. */
  function SqlType(sql: string, normalize: string -> string): string {
    var words := Fields(normalize(sql));
    if |words| > 0 then words[0] else "other"
  }

  /**
    What the tag means: "other" for text without a word, otherwise the first
    word. The tag is "other" exactly when there is no word or the first word
    is itself "other". Either way it is one non-empty word.
   */
  lemma SqlTypeClassifies(sql: string, normalize: string -> string)
    ensures |SqlType(sql, normalize)| > 0 && NoSpace(SqlType(sql, normalize))
    ensures AllSpace(normalize(sql)) ==> SqlType(sql, normalize) == "other"
    ensures !AllSpace(normalize(sql)) ==> IsFirstWord(normalize(sql), SqlType(sql, normalize))
    ensures SqlType(sql, normalize) == "other" <==>
      AllSpace(normalize(sql)) || IsFirstWord(normalize(sql), "other")
  {
    var text := normalize(sql);
    FieldsEmpty(text);
    FieldsAreWords(text);
    if !AllSpace(text) {
      FirstField(text);
      if IsFirstWord(text, "other") {
        FirstWordIsFirstField(text, "other");
      }
    }
  }

  /**
    The body of the loop in main for one record: look the endpoint up, fill an
    empty user or database from the matched host, and build the output record.
   */
  function Enrich(index: HostIndex, e: SniffEntry, normalize: string -> string): OutputEntry {
    var key := EndpointKey(e.cip, e.cport);
    var info := if key in index then index[key] else HostInfo("", UnmatchedId, "", "");
    var entry :=
      if key !in index then e
      else e.(user := if e.user == "" then info.user else e.user,
              db := if e.db == "" then info.db else e.db);
    OutputEntry(DecimalString(info.id), entry.cus, entry.sql, 0,
                entry.user, entry.db, SqlType(entry.sql, normalize))
  }

  /**
    What the join promises for one record. Unmatched: the sentinel id, and
    user and database unchanged. Matched: the host's id, and the record's own
    user and database where non-empty, the host's otherwise. Always: no rows
    sent, the record's time and SQL, and its SQL type tag.
   */
  lemma EnrichSpec(index: HostIndex, e: SniffEntry, normalize: string -> string)
    ensures var o := Enrich(index, e, normalize);
      && o.rowsSent == 0 && o.queryTime == e.cus && o.sql == e.sql
      && o.sqlType == SqlType(e.sql, normalize)
    ensures var o := Enrich(index, e, normalize);
      EndpointKey(e.cip, e.cport) !in index ==>
        o.connectionId == "99999" && o.username == e.user && o.dbName == e.db
    ensures var o := Enrich(index, e, normalize);
      EndpointKey(e.cip, e.cport) in index ==>
        var h := index[EndpointKey(e.cip, e.cport)];
        && o.connectionId == DecimalString(h.id)
        && ParseDecimal(o.connectionId) == Some(h.id as int)
        && (e.user != "" ==> o.username == e.user) && (e.user == "" ==> o.username == h.user)
        && (e.db != "" ==> o.dbName == e.db) && (e.db == "" ==> o.dbName == h.db)
  {
    var key := EndpointKey(e.cip, e.cport);
    if key in index {
      DecimalRoundTrip(index[key].id);
    } else {
      SentinelRendering();
    }
  }

  /** The sentinel identifier renders as "99999". */
  lemma SentinelRendering()
    ensures DecimalString(UnmatchedId) == "99999"
  {
  }

  /** The loop of main: one output record per sniff record, in input order. */
  method TransformSniff(index: HostIndex, entries: seq<SniffEntry>, normalize: string -> string)
    returns (out: seq<OutputEntry>)
    ensures |out| == |entries|
    ensures forall i :: 0 <= i < |entries| ==> out[i] == Enrich(index, entries[i], normalize)
  {
    out := [];
    var i := 0;
    while i < |entries|
      invariant 0 <= i <= |entries|
      invariant |out| == i
      invariant forall k :: 0 <= k < i ==> out[k] == Enrich(index, entries[k], normalize)
    {
      out := out + [Enrich(index, entries[i], normalize)];
      i := i + 1;
    }
  }

  /** The whole run: build the index from the host-info records, then transform the sniff records. */
  method Run(infos: seq<HostInfo>, entries: seq<SniffEntry>, normalize: string -> string)
    returns (out: seq<OutputEntry>)
    ensures |out| == |entries|
    ensures forall i :: 0 <= i < |entries| ==> out[i] == Enrich(HostIndexOf(infos), entries[i], normalize)
  {
    var index := BuildHostIndex(infos);
    out := TransformSniff(index, entries, normalize);
  }

  /**
    The join stated against the host-info records themselves: a record whose
    endpoint no host-info line names gets the sentinel and keeps its user and
    database; otherwise the last host-info line for its endpoint decides.
   */
  lemma EnrichAgainstHostInfos(infos: seq<HostInfo>, e: SniffEntry, normalize: string -> string)
    ensures var key := EndpointKey(e.cip, e.cport);
      var o := Enrich(HostIndexOf(infos), e, normalize);
      (forall j :: 0 <= j < |infos| ==> infos[j].host != key) ==>
        o.connectionId == "99999" && o.username == e.user && o.dbName == e.db
    ensures var key := EndpointKey(e.cip, e.cport);
      var o := Enrich(HostIndexOf(infos), e, normalize);
      forall i :: LatestFor(infos, i, key) ==>
        && o.connectionId == DecimalString(infos[i].id)
        && ParseDecimal(o.connectionId) == Some(infos[i].id as int)
        && o.username == (if e.user == "" then infos[i].user else e.user)
        && o.dbName == (if e.db == "" then infos[i].db else e.db)
  {
    var key := EndpointKey(e.cip, e.cport);
    HostIndexKeys(infos);
    EnrichSpec(HostIndexOf(infos), e, normalize);
    forall i | LatestFor(infos, i, key)
      ensures HostIndexOf(infos)[key] == infos[i]
    {
      HostIndexLastWins(infos, i, key);
    }
  }

  /**
    Worked example: host 10.0.0.1:3306 with id 7, user alice and database shop,
    and a sniff record from that endpoint with empty user and database running
    "select 1", which the normalizer turns into "select ?".
   */
  lemma MatchedScenario(normalize: string -> string)
    requires normalize("select 1") == "select ?"
    ensures var infos := [HostInfo("10.0.0.1:3306", 7, "alice", "shop")];
      var e := SniffEntry("10.0.0.1", 3306, "", "", "select 1", 12);
      Enrich(HostIndexOf(infos), e, normalize)
        == OutputEntry("7", 12, "select 1", 0, "alice", "shop", "select")
  {
    var infos := [HostInfo("10.0.0.1:3306", 7, "alice", "shop")];
    var e := SniffEntry("10.0.0.1", 3306, "", "", "select 1", 12);
    assert Digits(3306) == "3306" by {
      assert Digits(3) == "3";
      assert Digits(33) == "33";
      assert Digits(330) == "330";
    }
    assert EndpointKey(e.cip, e.cport) == "10.0.0.1:3306";
    var index := HostIndexOf(infos);
    assert index == map["10.0.0.1:3306" := infos[0]] by {
      assert infos[..0] == [];
    }
    var text := "select ?";
    assert FirstWordAt(text, 0, 6) by {
      assert text[..0] == [] && text[0..6] == "select" && IsSpace(text[6]);
    }
    FirstWordIsFirstField(text, "select");
    assert SqlType(e.sql, normalize) == "select";
    assert DecimalString(7) == "7";
  }

  /** A record from an endpoint that no host-info line names keeps its own user. */
  lemma UnmatchedScenario(infos: seq<HostInfo>, e: SniffEntry, normalize: string -> string)
    requires e.user == "bob"
    requires forall j :: 0 <= j < |infos| ==> infos[j].host != EndpointKey(e.cip, e.cport)
    ensures Enrich(HostIndexOf(infos), e, normalize).connectionId == "99999"
    ensures Enrich(HostIndexOf(infos), e, normalize).username == "bob"
  {
    EnrichAgainstHostInfos(infos, e, normalize);
  }

  /**
    No sniff record's key is empty, so the "" entry that an undecodable
    host-info line inserts never takes part in a join: every output is the
    same with or without it.
   */
  lemma EmptyHostEntryNeverMatched(index: HostIndex, e: SniffEntry, normalize: string -> string)
    ensures EndpointKey(e.cip, e.cport) != ""
    ensures Enrich(index, e, normalize) == Enrich(index - {""}, e, normalize)
  {
  }

  /** A sniff line that failed to decode is looked up under ":0". */
  lemma MalformedSniffLineKey()
    ensures EndpointKey(ZeroSniffEntry.cip, ZeroSniffEntry.cport) == ":0"
  {
  }
}
