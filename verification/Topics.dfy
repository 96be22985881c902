/** Topic names: building, parsing, the two subscription filters and the upstream prefix. Filters are
    matched as section 4.7 of MQTT 3.1.1 says. */
module Topics {
  import opened Model

  datatype Parsed = Parsed(siteID: string, deviceType: string, deviceID: string, kind: string)

  // ----- Levels -----

  /** The levels of a topic: at least one, possibly empty ones. */
  function Split(s: string): (levels: seq<string>)
    ensures levels != []
  {
    if s == "" then [""]
    else
      var rest := Split(s[1..]);
      if s[0] == '/' then [""] + rest else [[s[0]] + rest[0]] + rest[1..]
  }

  function Join(levels: seq<string>): string
  {
    if levels == [] then ""
    else if |levels| == 1 then levels[0]
    else levels[0] + "/" + Join(levels[1..])
  }

  predicate SlashFree(s: string)
  {
    '/' !in s
  }

  lemma {:induction false} SplitConcat(a: string, b: string)
    ensures Split(a + "/" + b) == Split(a) + Split(b)
  {
    if a == "" {
      assert (a + "/" + b)[1..] == b;
    } else {
      assert (a + "/" + b)[1..] == a[1..] + "/" + b;
      SplitConcat(a[1..], b);
    }
  }

  lemma {:induction false} SplitOfSlashFree(s: string)
    requires SlashFree(s)
    ensures Split(s) == [s]
  {
    if s != "" {
      SplitOfSlashFree(s[1..]);
      assert [s[0]] + s[1..] == s;
    }
  }

  /** Splitting undoes joining, for slash-free levels. */
  lemma {:induction false} SplitOfJoin(levels: seq<string>)
    requires levels != [] && forall k :: 0 <= k < |levels| ==> SlashFree(levels[k])
    ensures Split(Join(levels)) == levels
  {
    SplitOfSlashFree(levels[0]);
    if |levels| > 1 {
      SplitConcat(levels[0], Join(levels[1..]));
      SplitOfJoin(levels[1..]);
    }
  }

  /** Joining undoes splitting, for every string. */
  lemma {:induction false} JoinOfSplit(s: string)
    ensures Join(Split(s)) == s
  {
    if s != "" {
      JoinOfSplit(s[1..]);
      var rest := Split(s[1..]);
      if s[0] == '/' {
        assert ([""] + rest)[1..] == rest;
        assert "" + "/" + Join(rest) == s;
      } else {
        var levels := [[s[0]] + rest[0]] + rest[1..];
        assert levels[1..] == rest[1..];
        assert Join(levels) == [s[0]] + Join(rest);
      }
    }
  }

  lemma {:induction false} LevelsAreSlashFree(s: string)
    ensures forall k :: 0 <= k < |Split(s)| ==> SlashFree(Split(s)[k])
  {
    if s != "" {
      LevelsAreSlashFree(s[1..]);
    }
  }

  // ----- Builders and parser -----

  function Telemetry(siteID: string, deviceType: string, deviceID: string): string
  {
    "vpp/" + siteID + "/" + deviceType + "/" + deviceID + "/telemetry"
  }

  function Command(siteID: string, deviceType: string, deviceID: string): string
  {
    "vpp/" + siteID + "/" + deviceType + "/" + deviceID + "/command"
  }

  function Wildcard(siteID: string): string
  {
    "vpp/" + siteID + "/+/+/+"
  }

  function CommandAckWildcard(siteID: string): string
  {
    "vpp/" + siteID + "/+/+/command/ack"
  }

  function Parse(t: string): Option<Parsed>
  {
    var parts := Split(t);
    if |parts| < 5 || parts[0] != "vpp" then None
    else if |parts| == 6 then Some(Parsed(parts[1], parts[2], parts[3], parts[4] + "/" + parts[5]))
    else Some(Parsed(parts[1], parts[2], parts[3], parts[4]))
  }

  /** The topic a parsed value stands for. */
  function Print(p: Parsed): string
  {
    "vpp/" + p.siteID + "/" + p.deviceType + "/" + p.deviceID + "/" + p.kind
  }

  lemma Regroup(front: string, level: string, rest: string)
    ensures front + level + "/" + rest == front + (level + "/" + rest)
  {
  }

  /** The same text, grouped from the right. */
  lemma PrintNested(p: Parsed)
    ensures Print(p) == "vpp" + "/" + (p.siteID + "/" + (p.deviceType + "/" + (p.deviceID + "/" + p.kind)))
  {
    var site := "vpp/" + p.siteID + "/";
    Regroup(site + p.deviceType + "/", p.deviceID, p.kind);
    Regroup(site, p.deviceType, p.deviceID + "/" + p.kind);
    Regroup("vpp/", p.siteID, p.deviceType + "/" + (p.deviceID + "/" + p.kind));
    assert "vpp" + "/" == "vpp/";
  }

  lemma SplitOfPrint(p: Parsed)
    requires SlashFree(p.siteID) && SlashFree(p.deviceType) && SlashFree(p.deviceID)
    ensures Split(Print(p)) == ["vpp", p.siteID, p.deviceType, p.deviceID] + Split(p.kind)
  {
    PrintNested(p);
    SplitAfterTwo(p.deviceType, p.deviceID, p.kind);
    SplitAfterTwo("vpp", p.siteID, p.deviceType + "/" + (p.deviceID + "/" + p.kind));
  }

  lemma SplitAfterTwo(first: string, second: string, rest: string)
    requires SlashFree(first) && SlashFree(second)
    ensures Split(first + "/" + (second + "/" + rest)) == [first, second] + Split(rest)
  {
    SplitAfter(second, rest);
    SplitAfter(first, second + "/" + rest);
  }

  lemma SplitAfter(level: string, rest: string)
    requires SlashFree(level)
    ensures Split(level + "/" + rest) == [level] + Split(rest)
  {
    SplitOfSlashFree(level);
    SplitConcat(level, rest);
  }

  /** Parsing inverts printing, for slash-free segments and a kind of one or two levels. */
  lemma ParseOfPrint(p: Parsed)
    requires SlashFree(p.siteID) && SlashFree(p.deviceType) && SlashFree(p.deviceID)
    requires |Split(p.kind)| <= 2
    ensures Parse(Print(p)) == Some(p)
  {
    SplitOfPrint(p);
    JoinOfSplit(p.kind);
    var kind := Split(p.kind);
    if |kind| == 2 {
      assert kind[1..] == [kind[1]];
    }
  }

  /** The two builders are inverted by the parser. */
  lemma ParseOfBuilders(siteID: string, deviceType: string, deviceID: string)
    requires SlashFree(siteID) && SlashFree(deviceType) && SlashFree(deviceID)
    ensures Parse(Telemetry(siteID, deviceType, deviceID)) == Some(Parsed(siteID, deviceType, deviceID, "telemetry"))
    ensures Parse(Command(siteID, deviceType, deviceID)) == Some(Parsed(siteID, deviceType, deviceID, "command"))
  {
    SplitOfSlashFree("telemetry");
    SplitOfSlashFree("command");
    ParseOfPrint(Parsed(siteID, deviceType, deviceID, "telemetry"));
    ParseOfPrint(Parsed(siteID, deviceType, deviceID, "command"));
    var front := "vpp/" + siteID + "/" + deviceType + "/" + deviceID;
    LastLevels(front, "vpp/" + siteID);
  }

  /** The builders, the subscriptions' own levels and the printed form, level by level. */
  lemma BuildersJoinLevels(siteID: string, deviceType: string, deviceID: string, kind: string)
    ensures Telemetry(siteID, deviceType, deviceID) == Join(["vpp", siteID, deviceType, deviceID, "telemetry"])
    ensures Command(siteID, deviceType, deviceID) == Join(["vpp", siteID, deviceType, deviceID, "command"])
    ensures Print(Parsed(siteID, deviceType, deviceID, kind)) == Join(["vpp", siteID, deviceType, deviceID, kind])
  {
    JoinOfFive("vpp", siteID, deviceType, deviceID, kind);
    JoinOfFive("vpp", siteID, deviceType, deviceID, "telemetry");
    JoinOfFive("vpp", siteID, deviceType, deviceID, "command");
    LastLevels("vpp/" + siteID + "/" + deviceType + "/" + deviceID, "");
    assert "vpp" + "/" == "vpp/";
  }

  lemma JoinOfFive(a: string, b: string, c: string, d: string, e: string)
    ensures Join([a, b, c, d, e]) == a + "/" + b + "/" + c + "/" + d + "/" + e
  {
    assert [a, b, c, d, e][1..] == [b, c, d, e] && [b, c, d, e][1..] == [c, d, e] && [c, d, e][1..] == [d, e];
    JoinOfTwo(d, e);
    assert Join([c, d, e]) == c + "/" + Join([d, e]) && Join([b, c, d, e]) == b + "/" + Join([c, d, e]);
    assert Join([a, b, c, d, e]) == a + "/" + Join([b, c, d, e]);
  }

  /** What the parser reads from which level, and which topics it accepts. */
  lemma ParseReadsLevels(t: string)
    ensures var levels := Split(t);
            && (Parse(t).Some? <==> |levels| >= 5 && levels[0] == "vpp")
            && (Parse(t).Some? ==>
                  && Parse(t).value.siteID == levels[1] && Parse(t).value.deviceType == levels[2]
                  && Parse(t).value.deviceID == levels[3]
                  && Parse(t).value.kind == if |levels| == 6 then Join(levels[4..]) else levels[4])
  {
    var levels := Split(t);
    if |levels| == 6 {
      assert levels[4..] == [levels[4], levels[5]];
      JoinOfTwo(levels[4], levels[5]);
    }
  }

  lemma LastLevels(front: string, site: string)
    ensures front + "/" + "telemetry" == front + "/telemetry"
    ensures front + "/" + "command" == front + "/command"
    ensures site + "/" + "+" + "/" + "+" + "/" + "+" == site + "/+/+/+"
    ensures site + "/" + "+" + "/" + "+" + "/" + "command/ack" == site + "/+/+/command/ack"
  {
  }

  /** An accepted topic is reprinted exactly if and only if it has five or six levels: deeper topics
      are accepted too, but lose their tail. */
  lemma PrintOfParse(t: string)
    requires Parse(t).Some?
    ensures Print(Parse(t).value) == t <==> |Split(t)| <= 6
  {
    var parts, p := Split(t), Parse(t).value;
    LevelsOfReprint(t);
    JoinOfSplit(t);
    JoinOfSplit(Print(p));
    hide Split, Parse, Print;
    if |parts| == 5 {
      assert ["vpp", p.siteID, p.deviceType, p.deviceID] + parts[4..] == parts;
    } else if |parts| == 6 {
      assert ["vpp", p.siteID, p.deviceType, p.deviceID] + parts[4..] == parts;
    }
  }

  /** The levels of the reprinted topic. */
  lemma LevelsOfReprint(t: string)
    requires Parse(t).Some?
    ensures var parts, p := Split(t), Parse(t).value;
            && parts[..4] == ["vpp", p.siteID, p.deviceType, p.deviceID]
            && Split(Print(p)) == parts[..4] + if |parts| <= 6 then parts[4..] else [parts[4]]
  {
    var parts, p := Split(t), Parse(t).value;
    hide Split, Print, Parse;
    LevelsAreSlashFree(t);
    ParseReadsLevels(t);
    SplitOfPrint(p);
    if |parts| == 6 {
      JoinOfTwo(parts[4], parts[5]);
      assert parts[4..] == [parts[4], parts[5]];
      TwoLevels(p.kind, parts[4], parts[5]);
    } else {
      SplitOfSlashFree(parts[4]);
    }
  }

  lemma JoinOfTwo(a: string, b: string)
    ensures Join([a, b]) == a + "/" + b
  {
    assert [a, b][1..] == [b];
  }

  // ----- Filters -----

  /** Level by level: "+" stands for any one level, a final "#" for any rest. A wildcard character in any
      other place makes a filter illegal; compared literally, as here, it reaches no legal topic either. */
  predicate MatchesLevels(filter: seq<string>, topic: seq<string>)
  {
    if filter == [] then topic == []
    else if filter == ["#"] then true
    else topic != [] && (filter[0] == "+" || filter[0] == topic[0]) && MatchesLevels(filter[1..], topic[1..])
  }

  /** A filter that starts with a wildcard does not reach topics that start with a dollar sign. */
  predicate Matches(filter: string, topic: string)
  {
    && (topic != "" && topic[0] == '$' ==> filter == "" || (filter[0] != '+' && filter[0] != '#'))
    && MatchesLevels(Split(filter), Split(topic))
  }

  /** The topics the gateway and the platform subscribe to. */
  function SubscribeTopics(siteID: string): seq<string>
  {
    [Wildcard(siteID), CommandAckWildcard(siteID)]
  }

  predicate Subscribed(siteID: string, topic: string)
  {
    exists k :: 0 <= k < |SubscribeTopics(siteID)| && Matches(SubscribeTopics(siteID)[k], topic)
  }

  /** The five-level topics of the site, and its command/ack topics. */
  predicate OfSite(siteID: string, levels: seq<string>)
  {
    || (|levels| == 5 && levels[0] == "vpp" && levels[1] == siteID)
    || (|levels| == 6 && levels[0] == "vpp" && levels[1] == siteID && levels[4] == "command" && levels[5] == "ack")
  }

  lemma TwoLevels(s: string, first: string, second: string)
    requires SlashFree(first) && SlashFree(second) && s == first + "/" + second
    ensures Split(s) == [first, second]
  {
    SplitAfter(first, second);
    SplitOfSlashFree(second);
  }

  lemma WildcardLevels(siteID: string)
    requires SlashFree(siteID)
    ensures Split(Wildcard(siteID)) == ["vpp", siteID, "+", "+", "+"]
  {
    LastLevels("", "vpp/" + siteID);
    SplitOfPrint(Parsed(siteID, "+", "+", "+"));
    SplitOfSlashFree("+");
  }

  lemma PlusKindLevels(siteID: string, kind: string, first: string, second: string)
    requires SlashFree(siteID) && SlashFree(first) && SlashFree(second) && kind == first + "/" + second
    ensures Split("vpp/" + siteID + "/" + "+" + "/" + "+" + "/" + kind) == ["vpp", siteID, "+", "+", first, second]
  {
    SplitOfPrint(Parsed(siteID, "+", "+", kind));
    TwoLevels(kind, first, second);
  }

  lemma CommandAckWildcardLevels(siteID: string)
    requires SlashFree(siteID)
    ensures Split(CommandAckWildcard(siteID)) == ["vpp", siteID, "+", "+", "command", "ack"]
  {
    LastLevels("", "vpp/" + siteID);
    PlusKindLevels(siteID, "command" + "/" + "ack", "command", "ack");
    assert "command" + "/" + "ack" == "command/ack";
  }

  /** A level of a filter that is no wildcard matches literally. */
  lemma MatchesTwice(a: string, b: string, filter: seq<string>, topic: seq<string>)
    requires filter != []
    ensures MatchesLevels([a, b] + filter, topic) <==>
              |topic| >= 2 && (a == "+" || topic[0] == a) && (b == "+" || topic[1] == b)
              && MatchesLevels(filter, topic[2..])
  {
    var f := [a, b] + filter;
    assert f[1..] == [b] + filter && f[1..][1..] == filter;
    if |topic| >= 2 {
      assert topic[1..][1..] == topic[2..];
    }
  }

  lemma SubscribedLevels(siteID: string, topic: string)
    requires SlashFree(siteID)
    ensures Subscribed(siteID, topic) <==>
              OfSite(if siteID == "+" && |Split(topic)| > 1 then Split(topic)[1] else siteID, Split(topic))
  {
    WildcardLevels(siteID);
    CommandAckWildcardLevels(siteID);
    var levels := Split(topic);
    assert Subscribed(siteID, topic)
           <==> Matches(Wildcard(siteID), topic) || Matches(CommandAckWildcard(siteID), topic) by {
      assert SubscribeTopics(siteID)[0] == Wildcard(siteID) && SubscribeTopics(siteID)[1] == CommandAckWildcard(siteID);
    }
    assert ["vpp", siteID, "+", "+", "+"] == ["vpp", siteID] + ["+", "+", "+"];
    assert ["vpp", siteID, "+", "+", "command", "ack"] == ["vpp", siteID] + ["+", "+", "command", "ack"];
    MatchesTwice("vpp", siteID, ["+", "+", "+"], levels);
    MatchesTwice("vpp", siteID, ["+", "+", "command", "ack"], levels);
    if |levels| >= 2 {
      PlusTails(levels[2..]);
    }
  }

  lemma PlusTails(topic: seq<string>)
    ensures MatchesLevels(["+", "+", "+"], topic) <==> |topic| == 3
    ensures MatchesLevels(["+", "+", "command", "ack"], topic) <==>
              |topic| == 4 && topic[2] == "command" && topic[3] == "ack"
  {
    assert ["+", "+", "+"] == ["+", "+"] + ["+"];
    assert ["+", "+", "command", "ack"] == ["+", "+"] + ["command", "ack"];
    MatchesTwice("+", "+", ["+"], topic);
    MatchesTwice("+", "+", ["command", "ack"], topic);
    if |topic| >= 2 {
      LastFilters(topic[2..]);
    }
  }

  lemma LastFilters(rest: seq<string>)
    ensures MatchesLevels(["+"], rest) <==> |rest| == 1
    ensures MatchesLevels(["command", "ack"], rest) <==> |rest| == 2 && rest[0] == "command" && rest[1] == "ack"
  {
    assert ["+"][1..] == [] && ["command", "ack"][1..] == ["ack"] && ["ack"][1..] == [];
    assert "#" != "ack" && "#" != "+" && "+" != "command" && "+" != "ack";
    if rest != [] {
      var tail := rest[1..];
      assert MatchesLevels(["ack"], tail) <==> tail != [] && tail[0] == "ack" && MatchesLevels([], tail[1..]);
    }
  }

  /** The two filters match exactly the site's own topics if and only if the site id is not itself a
      wildcard. */
  lemma SubscriptionIsExact(siteID: string)
    requires SlashFree(siteID)
    ensures (forall topic: string :: Subscribed(siteID, topic) <==> OfSite(siteID, Split(topic))) <==> siteID != "+"
  {
    forall topic: string
      ensures siteID != "+" ==> (Subscribed(siteID, topic) <==> OfSite(siteID, Split(topic)))
    {
      SubscribedLevels(siteID, topic);
    }
    if siteID == "+" {
      var other := Print(Parsed("site", "pv", "id", "kind"));
      SplitOfPrint(Parsed("site", "pv", "id", "kind"));
      SplitOfSlashFree("kind");
      SubscribedLevels(siteID, other);
      assert Subscribed(siteID, other) && !OfSite(siteID, Split(other));
    }
  }

  // ----- The upstream prefix -----

  function TrimLeft(s: string): string
  {
    if s != "" && s[0] == '/' then TrimLeft(s[1..]) else s
  }

  function TrimRight(s: string): string
  {
    if s != "" && s[|s| - 1] == '/' then TrimRight(s[..|s| - 1]) else s
  }

  function Trim(s: string): string
  {
    TrimRight(TrimLeft(s))
  }

  function UpstreamTopic(original: string, prefix: string): string
  {
    if Trim(prefix) == "" then original else Trim(prefix) + "/" + TrimLeft(original)
  }

  function Slashes(n: nat): string
  {
    seq(n, _ => '/')
  }

  predicate NoSlashAtEnds(s: string)
  {
    s != "" && s[0] != '/' && s[|s| - 1] != '/'
  }

  predicate OnlySlashes(s: string)
  {
    forall k :: 0 <= k < |s| ==> s[k] == '/'
  }

  /** The prefix is `core` with slashes around it. */
  ghost predicate IsCore(prefix: string, core: string)
  {
    NoSlashAtEnds(core) && exists m: nat, n: nat ::
      m + |core| + n == |prefix| && prefix == Slashes(m) + core + Slashes(n)
  }

  /** The topic is `bare` with slashes before it. */
  ghost predicate IsBare(topic: string, bare: string)
  {
    (bare == "" || bare[0] != '/') && exists k: nat :: k + |bare| == |topic| && topic == Slashes(k) + bare
  }

  /** What a message goes out as: unchanged when there is no prefix, else prefix, slash, topic, with no
      slashes around the prefix or before the topic. */
  ghost predicate GoesOutAs(original: string, prefix: string, sent: string)
  {
    && (OnlySlashes(prefix) ==> sent == original)
    && (forall core, bare :: IsCore(prefix, core) && IsBare(original, bare) ==> sent == core + "/" + bare)
  }

  lemma {:induction false} TrimLeftOfSlashes(n: nat, s: string)
    requires s == "" || s[0] != '/'
    ensures TrimLeft(Slashes(n) + s) == s
  {
    if n > 0 {
      TrimLeftOfSlashes(n - 1, s);
      assert (Slashes(n) + s)[1..] == Slashes(n - 1) + s;
    } else {
      assert Slashes(n) + s == s;
    }
  }

  lemma {:induction false} TrimRightOfSlashes(s: string, n: nat)
    requires s == "" || s[|s| - 1] != '/'
    ensures TrimRight(s + Slashes(n)) == s
  {
    if n > 0 {
      TrimRightOfSlashes(s, n - 1);
      assert (s + Slashes(n))[..|s + Slashes(n)| - 1] == s + Slashes(n - 1);
    } else {
      assert s + Slashes(n) == s;
    }
  }

  lemma TrimIsCore(prefix: string, core: string)
    requires IsCore(prefix, core)
    ensures Trim(prefix) == core
  {
    var m: nat, n: nat :| m + |core| + n == |prefix| && prefix == Slashes(m) + core + Slashes(n);
    assert prefix == Slashes(m) + (core + Slashes(n)) && (core + Slashes(n))[0] == core[0];
    TrimLeftOfSlashes(m, core + Slashes(n));
    TrimRightOfSlashes(core, n);
  }

  lemma TrimOfOnlySlashes(prefix: string)
    requires OnlySlashes(prefix)
    ensures Trim(prefix) == ""
  {
    assert prefix == Slashes(|prefix|) + "";
    TrimLeftOfSlashes(|prefix|, "");
  }

  lemma {:induction false} TrimLeftBares(s: string) returns (k: nat)
    ensures k + |TrimLeft(s)| == |s| && s == Slashes(k) + TrimLeft(s)
    ensures IsBare(s, TrimLeft(s))
  {
    if s != "" && s[0] == '/' {
      k := TrimLeftBares(s[1..]);
      k := k + 1;
      assert s == ['/'] + s[1..];
      assert Slashes(k) == ['/'] + Slashes(k - 1);
    } else {
      k := 0;
      assert s == Slashes(0) + s;
    }
  }

  lemma {:induction false} TrimRightCores(s: string) returns (n: nat)
    ensures |TrimRight(s)| + n == |s| && s == TrimRight(s) + Slashes(n)
    ensures TrimRight(s) != "" ==> TrimRight(s)[|TrimRight(s)| - 1] != '/' && TrimRight(s)[0] == s[0]
  {
    if s != "" && s[|s| - 1] == '/' {
      n := TrimRightCores(s[..|s| - 1]);
      n := n + 1;
      assert s == s[..|s| - 1] + ['/'];
      assert Slashes(n) == Slashes(n - 1) + ['/'];
    } else {
      n := 0;
      assert s == s + Slashes(0);
    }
  }

  /** Every prefix is slashes only or has a core. */
  lemma TrimCores(prefix: string)
    ensures if Trim(prefix) == "" then OnlySlashes(prefix) else IsCore(prefix, Trim(prefix))
  {
    var m := TrimLeftBares(prefix);
    var n := TrimRightCores(TrimLeft(prefix));
    assert prefix == Slashes(m) + (Trim(prefix) + Slashes(n)) == Slashes(m) + Trim(prefix) + Slashes(n);
  }

  /** Forwarding gives that topic and no other. */
  lemma UpstreamTopicIff(original: string, prefix: string, sent: string)
    ensures GoesOutAs(original, prefix, sent) <==> sent == UpstreamTopic(original, prefix)
  {
    TrimCores(prefix);
    var k := TrimLeftBares(original);
    if Trim(prefix) != "" && OnlySlashes(prefix) {
      TrimOfOnlySlashes(prefix);
    }
    forall core, bare | IsCore(prefix, core) && IsBare(original, bare)
      ensures core == Trim(prefix) != "" && bare == TrimLeft(original)
    {
      TrimIsCore(prefix, core);
      var j: nat :| j + |bare| == |original| && original == Slashes(j) + bare;
      TrimLeftOfSlashes(j, bare);
    }
  }

  /** With a prefix whose first level is not "vpp", no forwarded topic is taken for a local one. */
  lemma ForeignPrefixNeverMatches(siteID: string, prefix: string, original: string)
    requires SlashFree(siteID)
    requires Trim(prefix) != "" && Split(Trim(prefix))[0] != "vpp"
    ensures !Subscribed(siteID, UpstreamTopic(original, prefix))
  {
    SplitConcat(Trim(prefix), TrimLeft(original));
    SubscribedLevels(siteID, UpstreamTopic(original, prefix));
  }

  /** Among the topics the gateway forwards, exactly one shape comes back to its own filters: prefix
      "vpp", site "vpp" or a wildcard, and a device called "command" reporting kind "ack". */
  lemma ForwardedComesBackIff(siteID: string, prefix: string, original: string)
    requires SlashFree(siteID)
    requires Subscribed(siteID, original) && Trim(prefix) != ""
    ensures Subscribed(siteID, UpstreamTopic(original, prefix)) <==>
              && Trim(prefix) == "vpp" && siteID in ["vpp", "+"]
              && |Split(original)| == 5 && Split(original)[3] == "command" && Split(original)[4] == "ack"
  {
    SubscribedLevels(siteID, original);
    JoinOfSplit(original);
    NoLeadingSlash(original);
    SplitConcat(Trim(prefix), original);
    SubscribedLevels(siteID, UpstreamTopic(original, prefix));
    var head := Split(Trim(prefix));
    JoinOfSplit(Trim(prefix));
    if |head| == 1 {
      assert Trim(prefix) == head[0];
    } else if Trim(prefix) == "vpp" {
      SplitOfSlashFree("vpp");
    }
  }

  /** That shape exists: under the prefix "vpp", the acknowledgement of a device called "command" at a
      site called "vpp" is captured, and captured again once forwarded. */
  lemma ForwardedCanComeBack(deviceType: string, site: string, device: string, kind: string)
    requires SlashFree(deviceType) && site == "vpp" && device == "command" && kind == "ack"
    ensures var original := Print(Parsed(site, deviceType, device, kind));
            Subscribed(site, original) && Subscribed(site, UpstreamTopic(original, site))
  {
    hide Subscribed, Split, UpstreamTopic, Print;
    var p := Parsed(site, deviceType, device, kind);
    SplitOfPrint(p);
    SplitOfSlashFree(kind);
    SubscribedLevels(site, Print(p));
    TrimOfPlain(site);
    ForwardedComesBackIff(site, site, Print(p));
  }

  lemma TrimOfPlain(s: string)
    requires s == "" || (s[0] != '/' && s[|s| - 1] != '/')
    ensures Trim(s) == s
  {
  }

  /** Such a topic, in full. */
  lemma CommandAckComesBack()
    ensures var original := "vpp/vpp/battery/command/ack";
            Subscribed("vpp", original) && Subscribed("vpp", UpstreamTopic(original, "vpp"))
  {
    hide Subscribed, Split, UpstreamTopic;
    ForwardedCanComeBack("battery", "vpp", "command", "ack");
    assert Print(Parsed("vpp", "battery", "command", "ack")) == "vpp/vpp/battery/command/ack";
  }

  lemma NoLeadingSlash(s: string)
    requires Split(s)[0] != ""
    ensures TrimLeft(s) == s
  {
  }
}
