/** Label rendering of the metrics page: escaping of values, sorting of names, and a parser that reads
    the text back. */
module Labels {
  import opened Model
  import opened Strings

  // ----- Escaping -----

  function ReplaceAll(s: string, c: char, sub: string): string
  {
    if s == "" then "" else (if s[0] == c then sub else [s[0]]) + ReplaceAll(s[1..], c, sub)
  }

  /** Three replacements in sequence: backslash, quote, newline. */
  function EscapeLabel(v: string): string
  {
    ReplaceAll(ReplaceAll(ReplaceAll(v, '\\', "\\\\"), '"', "\\\""), '\n', "\\n")
  }

  function EscapeChar(c: char): string
  {
    if c == '\\' then "\\\\" else if c == '"' then "\\\"" else if c == '\n' then "\\n" else [c]
  }

  /** The same in one pass. */
  function Escape(v: string): string
  {
    if v == "" then "" else EscapeChar(v[0]) + Escape(v[1..])
  }

  lemma {:induction false} ReplaceAllConcat(a: string, b: string, c: char, sub: string)
    ensures ReplaceAll(a + b, c, sub) == ReplaceAll(a, c, sub) + ReplaceAll(b, c, sub)
  {
    if a == "" {
      assert a + b == b;
    } else {
      assert (a + b)[1..] == a[1..] + b;
      ReplaceAllConcat(a[1..], b, c, sub);
    }
  }

  lemma ReplaceInPair(x: char, y: char, c: char, sub: string)
    ensures ReplaceAll([x, y], c, sub) == (if x == c then sub else [x]) + (if y == c then sub else [y])
    ensures ReplaceAll([x], c, sub) == if x == c then sub else [x]
  {
    assert [x, y][1..] == [y] && [y][1..] == "" && [x][1..] == "";
    assert ReplaceAll([x], c, sub) == (if x == c then sub else [x]) + "";
    assert ReplaceAll([y], c, sub) == (if y == c then sub else [y]) + "";
  }

  /** No replacement touches what an earlier one has put in. */
  lemma EscapeLabelOfChar(c: char)
    ensures EscapeLabel([c]) == EscapeChar(c)
  {
    ReplaceInPair(c, c, '\\', "\\\\");
    ReplaceInPair(c, c, '"', "\\\"");
    ReplaceInPair(c, c, '\n', "\\n");
    ReplaceInPair('\\', '\\', '"', "\\\"");
    ReplaceInPair('\\', '\\', '\n', "\\n");
    ReplaceInPair('\\', '"', '\n', "\\n");
    assert "\\\\" == ['\\', '\\'] && "\\\"" == ['\\', '"'];
  }

  /** The sequential replacements are one character-by-character escape. */
  lemma {:induction false} EscapeLabelIsEscape(v: string)
    ensures EscapeLabel(v) == Escape(v)
  {
    if v != "" {
      var head, tail := [v[0]], v[1..];
      assert v == head + tail;
      EscapeLabelIsEscape(tail);
      EscapeLabelOfChar(v[0]);
      ReplaceAllConcat(head, tail, '\\', "\\\\");
      ReplaceAllConcat(ReplaceAll(head, '\\', "\\\\"), ReplaceAll(tail, '\\', "\\\\"), '"', "\\\"");
      ReplaceAllConcat(ReplaceAll(ReplaceAll(head, '\\', "\\\\"), '"', "\\\""),
                       ReplaceAll(ReplaceAll(tail, '\\', "\\\\"), '"', "\\\""), '\n', "\\n");
    }
  }

  /** What is escaped, and how: a backslash is doubled, a quote gets a backslash, a newline becomes a
      backslash and an n; every other character stays. */
  lemma EscapedCharacters(c: char)
    ensures EscapeLabel(['\\']) == ['\\', '\\']
    ensures EscapeLabel(['"']) == ['\\', '"']
    ensures EscapeLabel(['\n']) == ['\\', 'n']
    ensures c != '\\' && c != '"' && c != '\n' ==> EscapeLabel([c]) == [c]
  {
    EscapeLabelOfChar('\\');
    EscapeLabelOfChar('"');
    EscapeLabelOfChar('\n');
    EscapeLabelOfChar(c);
  }

  /** And character by character. */
  lemma EscapeLabelConcat(a: string, b: string)
    ensures EscapeLabel(a + b) == EscapeLabel(a) + EscapeLabel(b) && EscapeLabel("") == ""
  {
    ReplaceAllConcat(a, b, '\\', "\\\\");
    var a1, b1 := ReplaceAll(a, '\\', "\\\\"), ReplaceAll(b, '\\', "\\\\");
    ReplaceAllConcat(a1, b1, '"', "\\\"");
    ReplaceAllConcat(ReplaceAll(a1, '"', "\\\""), ReplaceAll(b1, '"', "\\\""), '\n', "\\n");
  }

  function UnescapeChar(c: char): char
  {
    if c == 'n' then '\n' else c
  }

  function Unescape(s: string): string
  {
    if s == "" then ""
    else if s[0] == '\\' && |s| >= 2 then [UnescapeChar(s[1])] + Unescape(s[2..])
    else [s[0]] + Unescape(s[1..])
  }

  /** Unescaping undoes escaping, so different values never escape alike. */
  lemma {:induction false} UnescapeOfEscape(v: string)
    ensures Unescape(Escape(v)) == v
  {
    if v != "" {
      UnescapeOfEscape(v[1..]);
      var e := EscapeChar(v[0]);
      assert (e + Escape(v[1..]))[|e|..] == Escape(v[1..]);
      assert v == [v[0]] + v[1..];
    }
  }

  // ----- Rendering and reading pairs -----

  datatype Pair = Pair(name: string, value: string)

  function Item(p: Pair): string
  {
    p.name + "=\"" + EscapeLabel(p.value) + "\""
  }

  function JoinComma(parts: seq<string>): string
  {
    if parts == [] then ""
    else if |parts| == 1 then parts[0]
    else parts[0] + "," + JoinComma(parts[1..])
  }

  function Items(pairs: seq<Pair>): (parts: seq<string>)
    ensures |parts| == |pairs|
  {
    if pairs == [] then [] else [Item(pairs[0])] + Items(pairs[1..])
  }

  /** The rendered text: name, equals sign and quoted value, with commas between the labels and none
      around them. */
  lemma ItemsReadAs(p: Pair, pairs: seq<Pair>)
    ensures JoinComma(Items([])) == ""
    ensures JoinComma(Items([p] + pairs))
            == p.name + "=" + "\"" + EscapeLabel(p.value) + "\""
               + if pairs == [] then "" else "," + JoinComma(Items(pairs))
  {
    assert ([p] + pairs)[1..] == pairs;
    assert Items([p] + pairs) == [Item(p)] + Items(pairs);
    assert ([Item(p)] + Items(pairs))[1..] == Items(pairs);
    assert "=\"" == "=" + "\"";
    assert Item(p) + "" == Item(p);
  }

  /** A label name that cannot be mistaken for more: it holds no equals sign. */
  predicate Plain(name: string)
  {
    '=' !in name
  }

  /** The name up to the first equals sign, and the rest after it. */
  function ReadName(s: string): Option<(string, string)>
  {
    if s == "" then None
    else if s[0] == '=' then Some(("", s[1..]))
    else match ReadName(s[1..])
      case None => None
      case Some((name, rest)) => Some(([s[0]] + name, rest))
  }

  /** The value up to the first quote that is not escaped, and the rest after it. */
  function ReadValue(s: string): Option<(string, string)>
  {
    if s == "" then None
    else if s[0] == '"' then Some(("", s[1..]))
    else if s[0] == '\\' then
      if |s| < 2 then None
      else match ReadValue(s[2..])
        case None => None
        case Some((value, rest)) => Some(([UnescapeChar(s[1])] + value, rest))
    else match ReadValue(s[1..])
      case None => None
      case Some((value, rest)) => Some(([s[0]] + value, rest))
  }

  lemma {:induction false} ReadNameShrinks(s: string)
    ensures ReadName(s).Some? ==> |ReadName(s).value.1| < |s|
  {
    if s != "" && s[0] != '=' {
      ReadNameShrinks(s[1..]);
    }
  }

  lemma {:induction false} ReadValueShrinks(s: string)
    ensures ReadValue(s).Some? ==> |ReadValue(s).value.1| < |s|
    decreases |s|
  {
    if s != "" && s[0] != '"' {
      if s[0] != '\\' {
        ReadValueShrinks(s[1..]);
      } else if |s| >= 2 {
        ReadValueShrinks(s[2..]);
      }
    }
  }

  /** Reads name="value" items separated by commas. */
  function ReadItems(s: string): Option<seq<Pair>>
    decreases |s|
  {
    ReadNameShrinks(s);
    match ReadName(s)
    case None => None
    case Some((name, afterName)) =>
      if afterName == "" || afterName[0] != '"' then None
      else
        ReadValueShrinks(afterName[1..]);
        match ReadValue(afterName[1..])
        case None => None
        case Some((value, rest)) =>
          if rest == "" then Some([Pair(name, value)])
          else if rest[0] != ',' then None
          else match ReadItems(rest[1..])
            case None => None
            case Some(pairs) => Some([Pair(name, value)] + pairs)
  }

  function ReadLabels(s: string): Option<seq<Pair>>
  {
    if s == "" then Some([]) else ReadItems(s)
  }

  lemma {:induction false} ReadNameOf(name: string, rest: string)
    requires Plain(name)
    ensures ReadName(name + "=" + rest) == Some((name, rest))
  {
    var s := name + "=" + rest;
    if name == "" {
      assert s[1..] == rest;
    } else {
      assert s[1..] == name[1..] + "=" + rest;
      ReadNameOf(name[1..], rest);
      assert name == [name[0]] + name[1..];
    }
  }

  lemma {:induction false} ReadValueOf(v: string, rest: string)
    ensures ReadValue(Escape(v) + "\"" + rest) == Some((v, rest))
  {
    var s := Escape(v) + "\"" + rest;
    if v == "" {
      assert s[1..] == rest;
    } else {
      var e := EscapeChar(v[0]);
      assert s == e + (Escape(v[1..]) + "\"" + rest);
      assert s[|e|..] == Escape(v[1..]) + "\"" + rest;
      ReadValueOf(v[1..], rest);
      assert v == [v[0]] + v[1..];
    }
  }

  /** One item, whatever follows it. */
  lemma ReadOneItem(p: Pair, rest: string)
    requires Plain(p.name)
    ensures var s := Item(p) + rest;
            && ReadName(s) == Some((p.name, "\"" + Escape(p.value) + "\"" + rest))
            && ReadValue(Escape(p.value) + "\"" + rest) == Some((p.value, rest))
  {
    EscapeLabelIsEscape(p.value);
    var quoted := "\"" + Escape(p.value) + "\"" + rest;
    assert Item(p) + rest == p.name + "=" + quoted by {
      assert "=\"" == "=" + "\"";
    }
    ReadNameOf(p.name, quoted);
    ReadValueOf(p.value, rest);
  }

  lemma ReadItemsStep(p: Pair, rest: string)
    requires Plain(p.name)
    ensures rest == "" ==> ReadItems(Item(p) + rest) == Some([p])
    ensures rest != "" && rest[0] == ',' && ReadItems(rest[1..]).Some?
            ==> ReadItems(Item(p) + rest) == Some([p] + ReadItems(rest[1..]).value)
  {
    hide Item, ReadValue, ReadName, Escape;
    ReadOneItem(p, rest);
    var quoted := "\"" + Escape(p.value) + "\"" + rest;
    assert quoted[0] == '"' && quoted[1..] == Escape(p.value) + "\"" + rest;
  }

  /** Reading undoes rendering, for plain names and arbitrary values. */
  lemma {:induction false} ReadItemsOf(pairs: seq<Pair>)
    requires pairs != [] && forall k :: 0 <= k < |pairs| ==> Plain(pairs[k].name)
    ensures ReadItems(JoinComma(Items(pairs))) == Some(pairs)
  {
    hide ReadItems, Item;
    var p, rest := pairs[0], pairs[1..];
    var parts := Items(pairs);
    assert parts[1..] == Items(rest);
    if rest == [] {
      assert JoinComma(parts) == Item(p) + "";
      ReadItemsStep(p, "");
      assert pairs == [p];
    } else {
      ReadItemsOf(rest);
      var tail := "," + JoinComma(Items(rest));
      assert JoinComma(parts) == Item(p) + tail;
      assert tail[1..] == JoinComma(Items(rest));
      ReadItemsStep(p, tail);
      assert pairs == [p] + rest;
    }
  }

  // ----- Sorted names -----

  ghost predicate Sorted(keys: seq<string>)
  {
    forall j, k :: 0 <= j < k < |keys| ==> Less(keys[j], keys[k])
  }

  /** The sorted list of the names, each once. */
  ghost predicate Lists(keys: seq<string>, names: set<string>)
  {
    Sorted(keys) && forall k :: k in keys <==> k in names
  }

  /** There is only one: the rendered order does not depend on how the map was visited. */
  lemma {:induction false} ListIsUnique(a: seq<string>, b: seq<string>, names: set<string>)
    requires Lists(a, names) && Lists(b, names)
    ensures a == b
    decreases |a|
  {
    if a != [] || b != [] {
      assert forall k :: k in a <==> k in b;
      assert a != [] ==> a[0] in b;
      assert b != [] ==> b[0] in a;
      HeadIsLeast(a);
      HeadIsLeast(b);
      LessIsTotal(a[0], b[0]);
      TailLists(a, names);
      TailLists(b, names);
      ListIsUnique(a[1..], b[1..], names - {a[0]});
      assert a == [a[0]] + a[1..] && b == [b[0]] + b[1..];
    }
  }

  lemma HeadIsLeast(keys: seq<string>)
    requires Sorted(keys) && keys != []
    ensures forall k :: k in keys ==> k == keys[0] || Less(keys[0], k)
  {
  }

  lemma TailLists(keys: seq<string>, names: set<string>)
    requires Lists(keys, names) && keys != []
    ensures Lists(keys[1..], names - {keys[0]})
  {
    LessIsTotal(keys[0], keys[0]);
    forall k
      ensures k in keys[1..] <==> k in names - {keys[0]}
    {
      assert k in keys <==> k == keys[0] || k in keys[1..];
    }
  }

  function Insert(keys: seq<string>, key: string): seq<string>
  {
    if keys == [] then [key]
    else if Less(key, keys[0]) then [key] + keys
    else [keys[0]] + Insert(keys[1..], key)
  }

  lemma {:induction false} InsertLists(keys: seq<string>, names: set<string>, key: string)
    requires Lists(keys, names) && key !in names
    ensures Lists(Insert(keys, key), names + {key})
    decreases |keys|
  {
    if keys != [] {
      LessIsTotal(key, keys[0]);
      assert keys[0] in names;
      HeadIsLeast(keys);
      if Less(key, keys[0]) {
        var longer := [key] + keys;
        forall k | 0 <= k < |keys|
          ensures Less(key, keys[k])
        {
          if k > 0 {
            LessIsTransitive(key, keys[0], keys[k]);
          }
        }
        assert forall k :: k in longer <==> k == key || k in keys;
      } else {
        TailLists(keys, names);
        InsertLists(keys[1..], names - {keys[0]}, key);
        var rest := Insert(keys[1..], key);
        var longer := [keys[0]] + rest;
        assert forall k :: k in longer <==> k == keys[0] || k in rest;
        forall k | 0 <= k < |rest|
          ensures Less(keys[0], rest[k])
        {
          assert rest[k] in rest;
        }
      }
    }
  }

  // ----- Label sets -----

  function PairsOf(keys: seq<string>, labels: map<string, string>): (pairs: seq<Pair>)
    requires forall k :: k in keys ==> k in labels
    ensures |pairs| == |keys|
  {
    seq(|keys|, i requires 0 <= i < |keys| => Pair(keys[i], labels[keys[i]]))
  }

  /** The text of a label set, through its one sorted list of names. */
  ghost predicate Renders(text: string, labels: map<string, string>)
  {
    exists keys :: Lists(keys, labels.Keys) && text == JoinComma(Items(PairsOf(keys, labels)))
  }

  /** Names are collected in any order, sorted, and rendered one by one. */
  method RenderLabels(labels: map<string, string>) returns (text: string)
    ensures Renders(text, labels)
  {
    var keys: seq<string> := [];
    var todo := labels.Keys;
    while todo != {}
      invariant todo <= labels.Keys
      invariant Lists(keys, labels.Keys - todo)
      decreases |todo|
    {
      var k :| k in todo;
      InsertLists(keys, labels.Keys - todo, k);
      keys := Insert(keys, k);
      todo := todo - {k};
      assert labels.Keys - todo == labels.Keys - (todo + {k}) + {k};
    }
    assert labels.Keys - {} == labels.Keys;
    var parts: seq<string> := [];
    ghost var pairs := PairsOf(keys, labels);
    for i := 0 to |keys|
      invariant parts == Items(pairs[..i])
    {
      ItemsSnoc(pairs, i);
      parts := parts + [keys[i] + "=\"" + EscapeLabel(labels[keys[i]]) + "\""];
    }
    assert pairs[..|keys|] == pairs;
    text := JoinComma(parts);
  }

  lemma {:induction false} ItemsSnoc(pairs: seq<Pair>, i: nat)
    requires i < |pairs|
    ensures Items(pairs[..i + 1]) == Items(pairs[..i]) + [Item(pairs[i])]
    decreases i
  {
    if i > 0 {
      ItemsSnoc(pairs[1..], i - 1);
      assert pairs[..i + 1][1..] == pairs[1..][..i] && pairs[..i][1..] == pairs[1..][..i - 1];
    } else {
      assert pairs[..1][1..] == [];
    }
  }

  /** The rendering does not depend on the order in which the map was visited. */
  lemma RenderingIsUnique(a: string, b: string, labels: map<string, string>)
    requires Renders(a, labels) && Renders(b, labels)
    ensures a == b
  {
    var ka :| Lists(ka, labels.Keys) && a == JoinComma(Items(PairsOf(ka, labels)));
    var kb :| Lists(kb, labels.Keys) && b == JoinComma(Items(PairsOf(kb, labels)));
    ListIsUnique(ka, kb, labels.Keys);
  }

  /** The label set that a list of pairs stands for. */
  function MapOf(pairs: seq<Pair>): map<string, string>
    decreases |pairs|
  {
    if pairs == [] then map[] else MapOf(pairs[1..])[pairs[0].name := pairs[0].value]
  }

  lemma {:induction false} MapOfPairs(keys: seq<string>, labels: map<string, string>)
    requires forall k :: k in keys ==> k in labels
    ensures MapOf(PairsOf(keys, labels)).Keys == set k | k in keys
    ensures forall k :: k in keys ==> MapOf(PairsOf(keys, labels))[k] == labels[k]
    decreases |keys|
  {
    if keys != [] {
      assert PairsOf(keys, labels)[1..] == PairsOf(keys[1..], labels);
      MapOfPairs(keys[1..], labels);
      assert forall k :: k in keys <==> k == keys[0] || k in keys[1..];
    }
  }

  /** Rendered labels with plain names are read back to the same label set. */
  lemma ReadUndoesRender(labels: map<string, string>, text: string)
    requires Renders(text, labels) && forall k :: k in labels ==> Plain(k)
    ensures ReadLabels(text).Some? && MapOf(ReadLabels(text).value) == labels
  {
    var keys :| Lists(keys, labels.Keys) && text == JoinComma(Items(PairsOf(keys, labels)));
    var pairs := PairsOf(keys, labels);
    MapOfPairs(keys, labels);
    assert (set k | k in keys) == labels.Keys;
    assert MapOf(pairs) == labels;
    if keys != [] {
      forall k | 0 <= k < |pairs|
        ensures Plain(pairs[k].name)
      {
        assert keys[k] in keys;
      }
      ReadItemsOf(pairs);
      NothingReadsAsItems();
    }
  }

  lemma NothingReadsAsItems()
    ensures ReadItems("") == None
  {
  }

  /** So distinct label sets never render alike. */
  lemma RenderIsInjective(a: map<string, string>, b: map<string, string>, text: string)
    requires Renders(text, a) && Renders(text, b)
    requires (forall k :: k in a ==> Plain(k)) && forall k :: k in b ==> Plain(k)
    ensures a == b
  {
    ReadUndoesRender(a, text);
    ReadUndoesRender(b, text);
  }

  /** A name that spells out a whole item and the start of the next. */
  function SlyName(a: string, u: string, b: string): string
  {
    Item(Pair(a, u)) + "," + b
  }

  /** The premise on names is needed: any two labels can be imitated by a single one with such a name. */
  lemma PlainNamesNeeded(a: string, u: string, b: string, v: string)
    requires Less(a, b)
    ensures var sly, fair := map[SlyName(a, u, b) := v], map[a := u, b := v];
            sly != fair && exists text :: Renders(text, sly) && Renders(text, fair)
  {
    var sly, fair := map[SlyName(a, u, b) := v], map[a := u, b := v];
    SlyText(a, u, b, v);
    assert |a| < |SlyName(a, u, b)|;
    hide Item, Renders, SlyName, Less;
    LessIsTotal(a, b);
    assert a in fair && a !in sly;
    OneRenders(SlyName(a, u, b), v);
    TwoRender(a, u, b, v);
  }

  lemma SlyText(a: string, u: string, b: string, v: string)
    ensures Item(Pair(SlyName(a, u, b), v)) == Item(Pair(a, u)) + "," + Item(Pair(b, v))
  {
    hide EscapeLabel;
  }

  lemma OneRenders(name: string, v: string)
    ensures Renders(Item(Pair(name, v)), map[name := v])
  {
    hide Item;
    var labels, keys := map[name := v], [name];
    assert Lists(keys, labels.Keys);
    assert PairsOf(keys, labels) == [Pair(name, v)];
    assert Items([Pair(name, v)]) == [Item(Pair(name, v))];
  }

  lemma TwoRender(a: string, u: string, b: string, v: string)
    requires Less(a, b)
    ensures Renders(Item(Pair(a, u)) + "," + Item(Pair(b, v)), map[a := u, b := v])
  {
    hide Item, Less;
    LessIsTotal(a, b);
    var labels, keys := map[a := u, b := v], [a, b];
    assert Lists(keys, labels.Keys);
    assert PairsOf(keys, labels) == [Pair(a, u), Pair(b, v)];
    assert Items([Pair(a, u), Pair(b, v)]) == [Item(Pair(a, u)), Item(Pair(b, v))] by {
      assert [Pair(a, u), Pair(b, v)][1..] == [Pair(b, v)];
      assert Items([Pair(b, v)]) == [Item(Pair(b, v))];
    }
    var parts := [Item(Pair(a, u)), Item(Pair(b, v))];
    assert parts[1..] == [Item(Pair(b, v))];
    assert JoinComma(Items(PairsOf(keys, labels))) == Item(Pair(a, u)) + "," + Item(Pair(b, v));
  }
}
