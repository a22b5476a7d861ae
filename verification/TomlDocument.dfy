/**
  Reading a rendered engine configuration back. The reader follows TOML v1.0.0
  for the constructs the renderer uses: blank lines, table headers with bare and
  quoted keys, and pairs whose value is a boolean, a basic string or an array of
  basic strings. It yields the settings in the order they are made.
 */
module TomlDocument {
  import opened EngineToml
  import opened Ordering

  datatype Table = Root | Log | Registry(host: string)

  datatype Value = Flag | Str(text: string) | List(items: seq<string>)

  datatype Setting = Setting(table: Table, key: string, value: Value)

  datatype Document = Unreadable | Settings(made: seq<Setting>)

  predicate Starts(s: string, prefix: string) {
    |s| >= |prefix| && s[..|prefix|] == prefix
  }

  function Added(x: Setting, d: Document): Document {
    if d.Unreadable? then Unreadable else Settings([x] + d.made)
  }

  // --- the reader ------------------------------------------------------------------------

  function SkipSpaces(s: string): (r: string)
    ensures |r| <= |s|
  {
    if s != "" && s[0] == ' ' then SkipSpaces(s[1..]) else s
  }

  /** How many letters the text begins with. */
  function Letters(s: string): (n: nat)
    ensures n <= |s|
  {
    if s != "" && 'a' <= s[0] <= 'z' then 1 + Letters(s[1..]) else 0
  }

  datatype Parse<T> = No | Yes(value: T, rest: string)

  function ReadItems(s: string): (r: Parse<seq<string>>)
    ensures r.Yes? ==> |r.rest| < |s|
    decreases |s|
  {
    var item := ReadBasic(s);
    if item.Bad? then No
    else if Starts(item.rest, "]") then Yes([item.value], item.rest[1..])
    else if Starts(item.rest, ", ") then
      var more := ReadItems(item.rest[2..]);
      if more.No? then No else Yes([item.value] + more.value, more.rest)
    else No
  }

  function ReadValue(s: string): (r: Parse<Value>)
    ensures r.Yes? ==> |r.rest| < |s|
  {
    if Starts(s, "true") then Yes(Flag, s[4..])
    else if Starts(s, "[") then
      var items := ReadItems(s[1..]);
      if items.No? then No else Yes(List(items.value), items.rest)
    else
      var text := ReadBasic(s);
      if text.Bad? then No else Yes(Str(text.value), text.rest)
  }

  /** A key, an equals sign and a value on a line of their own. */
  function ReadPair(line: string): (r: Parse<(string, Value)>)
    ensures r.Yes? ==> |r.rest| < |line|
  {
    var s := SkipSpaces(line);
    var n := Letters(s);
    if n == 0 || !Starts(s[n..], " = ") then No
    else
      var v := ReadValue(s[n + 3..]);
      if v.Yes? && Starts(v.rest, "\n") then Yes((s[..n], v.value), v.rest[1..]) else No
  }

  /** The rest of a table header, after its opening bracket. */
  function ReadHeader(s: string): (r: Parse<Table>)
    ensures r.Yes? ==> |r.rest| < |s|
  {
    if Starts(s, "log]\n") then Yes(Log, s[5..])
    else if Starts(s, "registry.") then
      var host := ReadBasic(s[9..]);
      if host.Got? && Starts(host.rest, "]\n") then Yes(Registry(host.value), host.rest[2..]) else No
    else No
  }

  function ReadDocument(s: string, table: Table): Document
    decreases |s|
  {
    if s == "" then Settings([])
    else if s[0] == '\n' then ReadDocument(s[1..], table)
    else if s[0] == '[' then
      var header := ReadHeader(s[1..]);
      if header.No? then Unreadable else ReadDocument(header.rest, header.value)
    else
      var pair := ReadPair(s);
      if pair.No? then Unreadable
      else Added(Setting(table, pair.value.0, pair.value.1), ReadDocument(pair.rest, table))
  }

  // --- pieces read back ---------------------------------------------------------------------

  lemma StartsBack(prefix: string, t: string)
    ensures Starts(prefix + t, prefix) && (prefix + t)[|prefix|..] == t
  {
  }

  lemma {:induction false} LettersBack(key: string, t: string)
    requires (forall c <- key :: 'a' <= c <= 'z') && t != "" && t[0] == ' '
    ensures Letters(key + t) == |key|
  {
    if key == "" {
      assert key + t == t;
    } else {
      assert (key + t)[1..] == key[1..] + t && key[0] in key;
      assert forall c <- key[1..] :: c in key;
      LettersBack(key[1..], t);
    }
  }

  lemma SpacesBack(s: string)
    requires s != "" && s[0] != ' '
    ensures SkipSpaces(s) == s && SkipSpaces("  " + s) == s
  {
    assert ("  " + s)[1..] == " " + s && (" " + s)[1..] == s;
  }

  /** A value that reads back in front of any line end. */
  ghost predicate Reads(text: string, v: Value) {
    forall t :: ReadValue(text + "\n" + t) == Yes(v, "\n" + t)
  }

  lemma PairAt(key: string, tail: string, v: Value, t: string)
    requires key != "" && (forall c <- key :: 'a' <= c <= 'z') && ReadValue(tail) == Yes(v, "\n" + t)
    ensures ReadPair(key + (" = " + tail)) == Yes((key, v), t) && ReadPair("  " + (key + (" = " + tail))) == Yes((key, v), t)
  {
    var s := key + (" = " + tail);
    assert s[0] == key[0] && key[0] in key;
    SpacesBack(s);
    LettersBack(key, " = " + tail);
    StartsBack(" = ", tail);
    assert s[|key|..] == " = " + tail && s[|key| + 3..] == tail && s[..|key|] == key;
    StartsBack("\n", t);
    hide ReadValue, SkipSpaces, Letters;
  }

  lemma PairBack(indent: string, key: string, text: string, v: Value, t: string)
    requires indent == "" || indent == "  "
    requires key != "" && (forall c <- key :: 'a' <= c <= 'z') && Reads(text, v)
    ensures ReadPair(indent + key + " = " + text + "\n" + t) == Yes((key, v), t)
  {
    hide ReadPair, ReadValue;
    var tail := text + "\n" + t;
    assert ReadValue(tail) == Yes(v, "\n" + t);
    PairAt(key, tail, v, t);
    assert indent + key + " = " + text + "\n" + t == indent + (key + (" = " + tail));
    assert "" + (key + (" = " + tail)) == key + (" = " + tail);
  }

  lemma FlagReads()
    ensures Reads("true", Flag)
  {
    forall t ensures ReadValue("true" + "\n" + t) == Yes(Flag, "\n" + t) {
      assert "true" + "\n" + t == "true" + ("\n" + t);
      StartsBack("true", "\n" + t);
    }
  }

  lemma QuoteBegins(text: string)
    ensures Quote(text) != "" && Quote(text)[0] == '"'
  {
  }

  lemma NotFlagOrList(s: string)
    requires s != "" && s[0] == '"'
    ensures !Starts(s, "true") && !Starts(s, "[")
  {
    if |s| >= 4 { assert s[..4][0] == '"'; }
    assert s[..1][0] == '"';
  }

  lemma StrReads(text: string)
    ensures Reads(Quote(text), Str(text))
  {
    hide ReadBasic, Quote, Starts, ReadItems;
    QuoteBegins(text);
    forall t ensures ReadValue(Quote(text) + "\n" + t) == Yes(Str(text), "\n" + t) {
      assert Quote(text) + "\n" + t == Quote(text) + ("\n" + t);
      NotFlagOrList(Quote(text) + ("\n" + t));
      QuoteReadsBack(text, "\n" + t);
    }
  }

  lemma {:induction false} JoinCons(parts: seq<string>, sep: string)
    requires |parts| > 1
    ensures Join(parts, sep) == parts[0] + sep + Join(parts[1..], sep)
  {
    var front, last := parts[..|parts| - 1], parts[|parts| - 1];
    if |parts| > 2 {
      JoinCons(front, sep);
      assert front[1..] == parts[1..][..|parts| - 2];
      assert parts[1..][|parts| - 2] == last;
      assert (parts[0] + sep + Join(front[1..], sep)) + sep + last == parts[0] + sep + (Join(front[1..], sep) + sep + last);
    } else {
      assert front == [parts[0]] && parts[1..] == [last];
    }
  }

  lemma LastItem(x: string, t: string)
    ensures ReadItems(Quote(x) + ("]" + t)) == Yes([x], t)
  {
    hide ReadBasic, Quote;
    QuoteReadsBack(x, "]" + t);
    StartsBack("]", t);
  }

  lemma NextItem(x: string, rest: string)
    ensures ReadItems(Quote(x) + (", " + rest)) ==
      var more := ReadItems(rest); if more.No? then No else Yes([x] + more.value, more.rest)
  {
    hide ReadBasic, Quote;
    QuoteReadsBack(x, ", " + rest);
    StartsBack(", ", rest);
    assert (", " + rest)[..1] == ",";
  }

  lemma {:induction false} ItemsBack(items: seq<string>, t: string)
    requires items != []
    ensures ReadItems(Join(QuoteAll(items), ", ") + "]" + t) == Yes(items, t)
    decreases |items|
  {
    hide ReadItems, Quote, Join;
    var quoted := QuoteAll(items);
    if |items| == 1 {
      assert quoted == [Quote(items[0])] && items == [items[0]];
      JoinOne(Quote(items[0]), ", ");
      assert Quote(items[0]) + "]" + t == Quote(items[0]) + ("]" + t);
      LastItem(items[0], t);
    } else {
      JoinCons(quoted, ", ");
      assert quoted[1..] == QuoteAll(items[1..]);
      var rest := Join(QuoteAll(items[1..]), ", ") + "]" + t;
      assert Join(quoted, ", ") + "]" + t == Quote(items[0]) + (", " + rest);
      NextItem(items[0], rest);
      ItemsBack(items[1..], t);
      assert items == [items[0]] + items[1..];
    }
  }

  lemma JoinOne(part: string, sep: string)
    ensures Join([part], sep) == part
  {
  }

  lemma ListReads(items: seq<string>)
    requires items != []
    ensures Reads("[" + Join(QuoteAll(items), ", ") + "]", List(items))
  {
    var inner := Join(QuoteAll(items), ", ");
    forall t ensures ReadValue("[" + inner + "]" + "\n" + t) == Yes(List(items), "\n" + t) {
      var s := "[" + inner + "]" + "\n" + t;
      assert s == "[" + (inner + "]" + ("\n" + t));
      StartsBack("[", inner + "]" + ("\n" + t));
      assert |s| >= 4 ==> s[..4][0] == '[';
      ItemsBack(items, "\n" + t);
      hide ReadItems, ReadBasic, Join;
    }
  }

  lemma RegistryPrefix(t: string)
    ensures Starts("registry." + t, "registry.") && !Starts("registry." + t, "log]\n") && ("registry." + t)[9..] == t
  {
    StartsBack("registry.", t);
    assert ("registry." + t)[..5][0] == 'r';
  }

  lemma RegistryBack(host: string, t: string)
    ensures ReadHeader("registry." + Quote(host) + "]\n" + t) == Yes(Registry(host), t)
  {
    hide ReadBasic, Quote, Starts;
    var tail := Quote(host) + ("]\n" + t);
    assert "registry." + Quote(host) + "]\n" + t == "registry." + tail;
    RegistryPrefix(tail);
    QuoteReadsBack(host, "]\n" + t);
    StartsBack("]\n", t);
  }

  // --- sections ---------------------------------------------------------------------------------

  datatype Section = DebugPart | LogPart(format: string) | MirrorPart(host: string, mirrors: seq<string>) | HttpPart(host: string)

  function TextOf(x: Section): string {
    match x
    case DebugPart => "debug = true\n"
    case LogPart(format) => "[log]\n  format = " + Quote(format) + "\n"
    case MirrorPart(host, mirrors) => MirrorSection(host, mirrors)
    case HttpPart(host) => HttpSection(host)
  }

  function SettingOf(x: Section): Setting {
    match x
    case DebugPart => Setting(Root, "debug", Flag)
    case LogPart(format) => Setting(Log, "format", Str(format))
    case MirrorPart(host, mirrors) => Setting(Registry(host), "mirrors", List(mirrors))
    case HttpPart(host) => Setting(Registry(host), "http", Flag)
  }

  lemma HeaderStep(header: string, table: Table, body: string, at: Table)
    requires ReadHeader(header + body) == Yes(table, body)
    ensures ReadDocument("[" + header + body, at) == ReadDocument(body, table)
  {
    var s := "[" + header + body;
    assert s[0] == '[' && s[1..] == header + body;
    hide ReadHeader, ReadPair;
  }

  lemma PairStep(line: string, key: string, v: Value, t: string, at: Table)
    requires ReadPair(line + t) == Yes((key, v), t) && line != "" && line[0] != '\n' && line[0] != '['
    ensures ReadDocument(line + t, at) == Added(Setting(at, key, v), ReadDocument(t, at))
  {
    assert (line + t)[0] == line[0];
    hide ReadHeader, ReadPair;
  }

  lemma DebugBack(t: string)
    ensures ReadDocument("debug = true\n" + t, Root) == Added(Setting(Root, "debug", Flag), ReadDocument(t, Root))
  {
    hide ReadDocument, ReadPair, Reads, Added;
    FlagReads();
    PairBack("", "debug", "true", Flag, t);
    assert "" + "debug" + " = " + "true" + "\n" + t == "debug = true\n" + t;
    PairStep("debug = true\n", "debug", Flag, t, Root);
  }

  lemma FormatBack(format: string, t: string)
    ensures ReadDocument("  format = " + Quote(format) + "\n" + t, Log) ==
      Added(Setting(Log, "format", Str(format)), ReadDocument(t, Log))
  {
    hide ReadDocument, ReadPair, Reads, Added, Quote;
    var line := "  format = " + Quote(format) + "\n";
    StrReads(format);
    PairBack("  ", "format", Quote(format), Str(format), t);
    assert "  " + "format" + " = " + Quote(format) + "\n" + t == line + t;
    PairStep(line, "format", Str(format), t, Log);
  }

  lemma MirrorsBack(host: string, mirrors: seq<string>, t: string)
    requires mirrors != []
    ensures ReadDocument("  mirrors = [" + Join(QuoteAll(mirrors), ", ") + "]\n" + t, Registry(host)) ==
      Added(Setting(Registry(host), "mirrors", List(mirrors)), ReadDocument(t, Registry(host)))
  {
    hide ReadDocument, ReadPair, Reads, Added, Join, QuoteAll;
    var list := "[" + Join(QuoteAll(mirrors), ", ") + "]";
    var line := "  mirrors = [" + Join(QuoteAll(mirrors), ", ") + "]\n";
    ListReads(mirrors);
    PairBack("  ", "mirrors", list, List(mirrors), t);
    assert "  " + "mirrors" + " = " + list + "\n" + t == line + t;
    PairStep(line, "mirrors", List(mirrors), t, Registry(host));
  }

  lemma HttpBack(host: string, t: string)
    ensures ReadDocument("  http = true\n" + t, Registry(host)) ==
      Added(Setting(Registry(host), "http", Flag), ReadDocument(t, Registry(host)))
  {
    hide ReadDocument, ReadPair, Reads, Added;
    FlagReads();
    PairBack("  ", "http", "true", Flag, t);
    assert "  " + "http" + " = " + "true" + "\n" + t == "  http = true\n" + t;
    PairStep("  http = true\n", "http", Flag, t, Registry(host));
  }

  lemma LogSectionBack(format: string, t: string, at: Table)
    ensures ReadDocument("[log]\n  format = " + Quote(format) + "\n" + t, at) ==
      Added(Setting(Log, "format", Str(format)), ReadDocument(t, Log))
  {
    hide ReadDocument, ReadHeader, Quote, Added;
    var line := "  format = " + Quote(format) + "\n";
    assert "[log]\n  format = " + Quote(format) + "\n" + t == "[" + "log]\n" + (line + t);
    LogBack(line + t);
    HeaderStep("log]\n", Log, line + t, at);
    FormatBack(format, t);
  }

  lemma MirrorSectionBack(host: string, mirrors: seq<string>, t: string, at: Table)
    requires mirrors != []
    ensures ReadDocument(MirrorSection(host, mirrors) + t, at) ==
      Added(Setting(Registry(host), "mirrors", List(mirrors)), ReadDocument(t, Registry(host)))
  {
    hide ReadDocument, Join, QuoteAll, Added, Header;
    var line := "  mirrors = [" + Join(QuoteAll(mirrors), ", ") + "]\n";
    assert MirrorSection(host, mirrors) == Header(host) + line;
    RegistryStep(host, line, t, at);
    MirrorsBack(host, mirrors, t);
  }

  /** A section makes its one setting, whatever table came before, and whatever follows is read in its table. */
  lemma SectionBack(x: Section, t: string, at: Table)
    requires (x.DebugPart? ==> at == Root) && (x.MirrorPart? ==> x.mirrors != [])
    ensures ReadDocument(TextOf(x) + t, at) == Added(SettingOf(x), ReadDocument(t, SettingOf(x).table))
  {
    hide ReadDocument, Quote, MirrorSection, Added, Header;
    match x
    case DebugPart => DebugBack(t);
    case LogPart(format) => LogSectionBack(format, t, at);
    case MirrorPart(host, mirrors) => MirrorSectionBack(host, mirrors, t, at);
    case HttpPart(host) =>
      RegistryStep(host, "  http = true\n", t, at);
      HttpBack(host, t);
  }

  lemma LogBack(t: string)
    ensures ReadHeader("log]\n" + t) == Yes(Log, t)
  {
    StartsBack("log]\n", t);
  }

  lemma RegistryStep(host: string, line: string, t: string, at: Table)
    ensures ReadDocument(Header(host) + line + t, at) == ReadDocument(line + t, Registry(host))
  {
    hide ReadDocument, ReadHeader, Quote;
    RegistryBack(host, line + t);
    HeaderStep("registry." + Quote(host) + "]\n", Registry(host), line + t, at);
    assert Header(host) + line + t == "[" + ("registry." + Quote(host) + "]\n") + (line + t);
  }

  function Texts(xs: seq<Section>): seq<string> {
    seq(|xs|, i requires 0 <= i < |xs| => TextOf(xs[i]))
  }

  function SettingsOf(xs: seq<Section>): seq<Setting> {
    seq(|xs|, i requires 0 <= i < |xs| => SettingOf(xs[i]))
  }

  ghost predicate Orderly(xs: seq<Section>, at: Table) {
    && (forall i | 0 <= i < |xs| :: xs[i].DebugPart? ==> i == 0 && at == Root)
    && (forall i | 0 <= i < |xs| :: xs[i].MirrorPart? ==> xs[i].mirrors != [])
  }

  lemma {:induction false} SectionsBack(xs: seq<Section>, at: Table)
    requires Orderly(xs, at)
    ensures ReadDocument(Join(Texts(xs), "\n"), at) == Settings(SettingsOf(xs))
    decreases |xs|
  {
    hide TextOf, SettingOf;
    if xs != [] {
      var texts := Texts(xs);
      assert texts[0] == TextOf(xs[0]) && SettingsOf(xs) == [SettingOf(xs[0])] + SettingsOf(xs[1..]);
      if |xs| == 1 {
        assert Join(texts, "\n") == TextOf(xs[0]) + "";
        SectionBack(xs[0], "", at);
      } else {
        JoinCons(texts, "\n");
        assert texts[1..] == Texts(xs[1..]);
        var rest, table := Join(Texts(xs[1..]), "\n"), SettingOf(xs[0]).table;
        assert Join(texts, "\n") == TextOf(xs[0]) + ("\n" + rest);
        SectionBack(xs[0], "\n" + rest, at);
        assert ("\n" + rest)[1..] == rest;
        SectionsBack(xs[1..], table);
      }
    }
  }

  /** The sections of a configuration. */
  function SectionsOf(cfg: Config, hosts: seq<string>, http: seq<string>): seq<Section>
    requires forall h <- hosts :: h in cfg.mirrors
  {
    (if cfg.debug then [DebugPart] else [])
    + (if cfg.logFormat != "" then [LogPart(cfg.logFormat)] else [])
    + seq(|hosts|, i requires 0 <= i < |hosts| => MirrorPart(hosts[i], cfg.mirrors[hosts[i]]))
    + seq(|http|, i requires 0 <= i < |http| => HttpPart(http[i]))
  }

  lemma TextIsSections(cfg: Config, hosts: seq<string>, http: seq<string>)
    requires forall h <- hosts :: h in cfg.mirrors
    ensures Text(cfg, hosts, http) == Join(Texts(SectionsOf(cfg, hosts, http)), "\n")
  {
    hide Join, Quote, MirrorSection, HttpSection;
    var xs := SectionsOf(cfg, hosts, http);
    var parts := Preamble(cfg)
      + seq(|hosts|, i requires 0 <= i < |hosts| => MirrorSection(hosts[i], cfg.mirrors[hosts[i]]))
      + seq(|http|, i requires 0 <= i < |http| => HttpSection(http[i]));
    assert |parts| == |xs|;
    assert parts == Texts(xs);
  }

  function SettingsFor(cfg: Config, hosts: seq<string>, http: seq<string>): seq<Setting>
    requires forall h <- hosts :: h in cfg.mirrors
  {
    (if cfg.debug then [Setting(Root, "debug", Flag)] else [])
    + (if cfg.logFormat != "" then [Setting(Log, "format", Str(cfg.logFormat))] else [])
    + seq(|hosts|, i requires 0 <= i < |hosts| => Setting(Registry(hosts[i]), "mirrors", List(cfg.mirrors[hosts[i]])))
    + seq(|http|, i requires 0 <= i < |http| => Setting(Registry(http[i]), "http", Flag))
  }

  lemma SettingsAgree(cfg: Config, hosts: seq<string>, http: seq<string>)
    requires forall h <- hosts :: h in cfg.mirrors
    ensures SettingsOf(SectionsOf(cfg, hosts, http)) == SettingsFor(cfg, hosts, http)
  {
    var xs := SectionsOf(cfg, hosts, http);
    assert |SettingsFor(cfg, hosts, http)| == |xs|;
  }

  lemma SectionsOrderly(cfg: Config, hosts: seq<string>, http: seq<string>)
    requires forall h <- hosts :: h in cfg.mirrors && cfg.mirrors[h] != []
    ensures Orderly(SectionsOf(cfg, hosts, http), Root)
  {
    assert forall i | 0 <= i < |hosts| :: hosts[i] in hosts;
  }

  /** What the configuration says, setting by setting. */
  ghost predicate Says(cfg: Config, x: Setting) {
    match x
    case Setting(Root, key, v) => cfg.debug && key == "debug" && v == Flag
    case Setting(Log, key, v) => cfg.logFormat != "" && key == "format" && v == Str(cfg.logFormat)
    case Setting(Registry(h), key, v) =>
      || (h in cfg.mirrors && cfg.mirrors[h] != [] && key == "mirrors" && v == List(cfg.mirrors[h]))
      || (h in cfg.mirrorHttp && h != "" && key == "http" && v == Flag)
  }

  lemma SettingsSaid(cfg: Config, hosts: seq<string>, http: seq<string>, x: Setting)
    requires MirrorHosts(cfg, hosts) && HttpHosts(cfg, http)
    ensures x in SettingsFor(cfg, hosts, http) <==> Says(cfg, x)
  {
    hide Sorted;
    var mirrors := seq(|hosts|, i requires 0 <= i < |hosts| => Setting(Registry(hosts[i]), "mirrors", List(cfg.mirrors[hosts[i]])));
    var plain := seq(|http|, i requires 0 <= i < |http| => Setting(Registry(http[i]), "http", Flag));
    assert x in mirrors <==>
      x.table.Registry? && x.table.host in hosts && x == Setting(x.table, "mirrors", List(cfg.mirrors[x.table.host])) by {
      if x.table.Registry? && x.table.host in hosts {
        var i :| 0 <= i < |hosts| && hosts[i] == x.table.host;
        assert mirrors[i] == Setting(x.table, "mirrors", List(cfg.mirrors[x.table.host]));
      }
    }
    assert x in plain <==> x.table.Registry? && x.table.host in http && x == Setting(x.table, "http", Flag) by {
      if x.table.Registry? && x.table.host in http {
        var i :| 0 <= i < |http| && http[i] == x.table.host;
        assert plain[i] == Setting(x.table, "http", Flag);
      }
    }
  }

  /**
    The rendered text reads back as the configuration: debug, the log format,
    each host's mirrors and each plaintext host, and nothing else.
   */
  lemma RenderedReadsBack(cfg: Config, hosts: seq<string>, http: seq<string>)
    requires MirrorHosts(cfg, hosts) && HttpHosts(cfg, http)
    ensures var d := ReadDocument(Text(cfg, hosts, http), Root);
      d == Settings(SettingsFor(cfg, hosts, http)) && forall x :: x in d.made <==> Says(cfg, x)
  {
    SectionsOrderly(cfg, hosts, http);
    hide ReadDocument, Text, Join, Texts, Sorted, SectionsOf, SettingsFor, Orderly, Says;
    TextIsSections(cfg, hosts, http);
    SettingsAgree(cfg, hosts, http);
    SectionsBack(SectionsOf(cfg, hosts, http), Root);
    forall x ensures x in SettingsFor(cfg, hosts, http) <==> Says(cfg, x) { SettingsSaid(cfg, hosts, http, x); }
  }
}
