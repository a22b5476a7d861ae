/**
  Rendering the engine configuration as TOML: quoted strings read back exactly,
  and the text does not depend on map iteration or on how plaintext mirrors are
  ordered or repeated. A char stands for a byte.
 */
module EngineToml {
  import opened Ordering

  // --- quoting -------------------------------------------------------------------------

  predicate Control(c: char) {
    c < ' ' || c == '\U{7F}'
  }

  function HexDigit(n: nat): char
    requires n < 16
  {
    if n < 10 then '0' + n as char else 'a' + (n - 10) as char
  }

  function EscapeChar(c: char): string {
    if c == '\\' then "\\\\"
    else if c == '"' then "\\\""
    else if c == '\U{8}' then "\\b"
    else if c == '\U{C}' then "\\f"
    else if c == '\n' then "\\n"
    else if c == '\r' then "\\r"
    else if c == '\t' then "\\t"
    else if Control(c) then "\\u00" + [HexDigit(c as nat / 16), HexDigit(c as nat % 16)]
    else [c]
  }

  function Escape(s: string): string {
    if s == "" then "" else Escape(s[..|s| - 1]) + EscapeChar(s[|s| - 1])
  }

  method TomlEscape(s: string) returns (b: string)
    ensures b == Escape(s)
  {
    b := "";
    for i := 0 to |s|
      invariant b == Escape(s[..i])
    {
      assert s[..i + 1][..i] == s[..i];
      var c := s[i];
      if c == '\\' { b := b + "\\\\"; }
      else if c == '"' { b := b + "\\\""; }
      else if c == '\U{8}' { b := b + "\\b"; }
      else if c == '\U{C}' { b := b + "\\f"; }
      else if c == '\n' { b := b + "\\n"; }
      else if c == '\r' { b := b + "\\r"; }
      else if c == '\t' { b := b + "\\t"; }
      else if c < ' ' || c == '\U{7F}' { b := b + ("\\u00" + [HexDigit(c as nat / 16), HexDigit(c as nat % 16)]); }
      else { b := b + [c]; }
    }
    assert s[..|s|] == s;
  }

  function Quote(s: string): string {
    "\"" + Escape(s) + "\""
  }

  // --- reading a basic string back (section "String" of TOML v1.0.0) ----------------------

  datatype Read = Bad | Got(value: string, rest: string)

  function HexValue(c: char): int {
    if '0' <= c <= '9' then c as int - '0' as int
    else if 'a' <= c <= 'f' then c as int - 'a' as int + 10
    else if 'A' <= c <= 'F' then c as int - 'A' as int + 10
    else -1
  }

  /** The byte of a `\uXXXX` escape in the ASCII range; -1 for anything else. */
  function Unicode(s: string): int
    requires |s| >= 4
  {
    var a, b, c, d := HexValue(s[0]), HexValue(s[1]), HexValue(s[2]), HexValue(s[3]);
    if a < 0 || b < 0 || c < 0 || d < 0 then -1
    else
      var code := ((a * 16 + b) * 16 + c) * 16 + d;
      if code < 128 then code else -1
  }

  function ShortEscape(c: char): string {
    if c == 'b' then "\U{8}"
    else if c == 't' then "\t"
    else if c == 'n' then "\n"
    else if c == 'f' then "\U{C}"
    else if c == 'r' then "\r"
    else if c == '"' then "\""
    else if c == '\\' then "\\"
    else ""
  }

  function Prepend(c: char, r: Read): Read {
    if r.Bad? then Bad else Got([c] + r.value, r.rest)
  }

  /** Reads up to the closing quote. Control characters other than tab may not stand bare. */
  function ReadBody(s: string): (r: Read)
    ensures r.Got? ==> |r.rest| < |s|
    decreases |s|
  {
    if s == "" then Bad
    else if s[0] == '"' then Got("", s[1..])
    else if s[0] == '\\' then
      if |s| >= 6 && s[1] == 'u' then
        var code := Unicode(s[2..6]);
        if code < 0 then Bad else Prepend(code as char, ReadBody(s[6..]))
      else if |s| >= 2 && ShortEscape(s[1]) != "" then Prepend(ShortEscape(s[1])[0], ReadBody(s[2..]))
      else Bad
    else if Control(s[0]) && s[0] != '\t' then Bad
    else Prepend(s[0], ReadBody(s[1..]))
  }

  function ReadBasic(s: string): Read {
    if s == "" || s[0] != '"' then Bad else ReadBody(s[1..])
  }

  lemma ReadPlain(c: char, t: string)
    requires c != '"' && c != '\\' && (Control(c) ==> c == '\t')
    ensures ReadBody([c] + t) == Prepend(c, ReadBody(t))
  {
    hide Unicode, ShortEscape;
    assert ([c] + t)[1..] == t;
  }

  lemma ReadShort(x: char, t: string)
    requires ShortEscape(x) != ""
    ensures ReadBody(['\\', x] + t) == Prepend(ShortEscape(x)[0], ReadBody(t))
  {
    hide Unicode;
    var s := ['\\', x] + t;
    assert s[0] == '\\' && s[1] == x && s[2..] == t;
  }

  lemma ReadUnicode(n: nat, t: string)
    requires n < 128
    ensures ReadBody("\\u00" + [HexDigit(n / 16), HexDigit(n % 16)] + t) == Prepend(n as char, ReadBody(t))
  {
    var four := ['0', '0', HexDigit(n / 16), HexDigit(n % 16)];
    assert HexValue(four[2]) == n / 16 && HexValue(four[3]) == n % 16;
    assert Unicode(four) == n;
    hide Unicode, ShortEscape, HexDigit;
    var s := "\\u00" + [HexDigit(n / 16), HexDigit(n % 16)] + t;
    assert s[0] == '\\' && s[1] == 'u' && s[2..6] == four && s[6..] == t;
  }

  lemma ReadEscaped(c: char, t: string)
    ensures ReadBody(EscapeChar(c) + t) == Prepend(c, ReadBody(t))
  {
    hide ReadBody, Unicode;
    if c == '\\' { ReadShort('\\', t); assert EscapeChar(c) == ['\\', '\\']; }
    else if c == '"' { ReadShort('"', t); assert EscapeChar(c) == ['\\', '"']; }
    else if c == '\U{8}' { ReadShort('b', t); assert EscapeChar(c) == ['\\', 'b']; }
    else if c == '\U{C}' { ReadShort('f', t); assert EscapeChar(c) == ['\\', 'f']; }
    else if c == '\n' { ReadShort('n', t); assert EscapeChar(c) == ['\\', 'n']; }
    else if c == '\r' { ReadShort('r', t); assert EscapeChar(c) == ['\\', 'r']; }
    else if c == '\t' { ReadShort('t', t); assert EscapeChar(c) == ['\\', 't']; }
    else if Control(c) { ReadUnicode(c as nat, t); }
    else { ReadPlain(c, t); }
  }

  lemma {:induction false} EscapeCons(s: string)
    requires s != ""
    ensures Escape(s) == EscapeChar(s[0]) + Escape(s[1..])
  {
    hide EscapeChar;
    if |s| > 1 {
      EscapeCons(s[..|s| - 1]);
      assert s[..|s| - 1][1..] == s[1..][..|s| - 2];
    } else {
      assert s[1..] == "" && s[..0] == "";
    }
  }

  lemma {:induction false} ReadBodyBack(s: string, t: string)
    ensures ReadBody(Escape(s) + "\"" + t) == Got(s, t)
  {
    hide EscapeChar, Unicode, ShortEscape;
    if s == "" {
      assert ("" + "\"" + t)[1..] == t;
    } else {
      hide ReadBody;
      EscapeCons(s);
      ReadBodyBack(s[1..], t);
      assert Escape(s) + "\"" + t == EscapeChar(s[0]) + (Escape(s[1..]) + "\"" + t);
      ReadEscaped(s[0], Escape(s[1..]) + "\"" + t);
    }
  }

  /** Reading a quoted string back consumes exactly the quoted text and yields the original. */
  lemma QuoteReadsBack(s: string, t: string)
    ensures ReadBasic(Quote(s) + t) == Got(s, t)
  {
    assert (Quote(s) + t)[1..] == Escape(s) + "\"" + t;
    ReadBodyBack(s, t);
  }

  // --- rendering -------------------------------------------------------------------------------

  datatype Config = Config(debug: bool, logFormat: string, mirrors: map<string, seq<string>>, mirrorHttp: seq<string>)

  function Join(parts: seq<string>, sep: string): string {
    if parts == [] then ""
    else if |parts| == 1 then parts[0]
    else Join(parts[..|parts| - 1], sep) + sep + parts[|parts| - 1]
  }

  function QuoteAll(s: seq<string>): seq<string> {
    seq(|s|, i requires 0 <= i < |s| => Quote(s[i]))
  }

  /** The table header of a registry host. */
  function Header(host: string): string {
    "[registry." + Quote(host) + "]\n"
  }

  function MirrorSection(host: string, mirrors: seq<string>): string {
    Header(host) + "  mirrors = [" + Join(QuoteAll(mirrors), ", ") + "]\n"
  }

  function HttpSection(host: string): string {
    Header(host) + "  http = true\n"
  }

  function Preamble(cfg: Config): seq<string> {
    (if cfg.debug then ["debug = true\n"] else [])
    + (if cfg.logFormat != "" then ["[log]\n  format = " + Quote(cfg.logFormat) + "\n"] else [])
  }

  /** The text for given orders of the hosts. */
  function Text(cfg: Config, hosts: seq<string>, http: seq<string>): string
    requires forall h <- hosts :: h in cfg.mirrors
  {
    Join(Preamble(cfg)
         + seq(|hosts|, i requires 0 <= i < |hosts| => MirrorSection(hosts[i], cfg.mirrors[hosts[i]]))
         + seq(|http|, i requires 0 <= i < |http| => HttpSection(http[i])), "\n")
  }

  ghost predicate MirrorHosts(cfg: Config, hosts: seq<string>) {
    Sorted(StringLess, hosts) && forall h :: h in hosts <==> h in cfg.mirrors && cfg.mirrors[h] != []
  }

  ghost predicate HttpHosts(cfg: Config, http: seq<string>) {
    Sorted(StringLess, http) && forall h :: h in http <==> h in cfg.mirrorHttp && h != ""
  }

  method SortHosts(mirrors: map<string, seq<string>>) returns (hosts: seq<string>)
    ensures Sorted(StringLess, hosts) && forall h :: h in hosts <==> h in mirrors && mirrors[h] != []
  {
    hosts := [];
    var todo := mirrors.Keys;
    while todo != {}
      invariant todo <= mirrors.Keys && Distinct(hosts)
      invariant forall h :: h in hosts <==> h in mirrors && h !in todo && mirrors[h] != []
    {
      var h :| h in todo;
      todo := todo - {h};
      if |mirrors[h]| > 0 { hosts := hosts + [h]; }
    }
    StringsLinear(hosts);
    SortCorrect(StringLess, hosts);
    hosts := Sort(StringLess, hosts);
  }

  method SortedUniqueHosts(given: seq<string>) returns (out: seq<string>)
    ensures Sorted(StringLess, out) && forall h :: h in out <==> h in given && h != ""
  {
    var seen: set<string> := {};
    out := [];
    for i := 0 to |given|
      invariant Distinct(out)
      invariant forall h :: h in out <==> h in given[..i] && h != ""
      invariant forall h :: h in seen <==> h in out
    {
      if given[i] == "" || given[i] in seen { continue; }
      seen := seen + {given[i]};
      out := out + [given[i]];
    }
    assert given[..|given|] == given;
    StringsLinear(out);
    SortCorrect(StringLess, out);
    out := Sort(StringLess, out);
  }

  method Assemble(cfg: Config, hosts: seq<string>, http: seq<string>) returns (text: string)
    requires forall h <- hosts :: h in cfg.mirrors
    ensures text == Text(cfg, hosts, http)
  {
    hide Join, Quote, MirrorSection, HttpSection;
    var sections: seq<string> := [];
    if cfg.debug { sections := sections + ["debug = true\n"]; }
    if cfg.logFormat != "" { sections := sections + ["[log]\n  format = " + Quote(cfg.logFormat) + "\n"]; }
    assert sections == Preamble(cfg);
    for i := 0 to |hosts|
      invariant sections == Preamble(cfg) + seq(i, k requires 0 <= k < i => MirrorSection(hosts[k], cfg.mirrors[hosts[k]]))
    {
      sections := sections + [MirrorSection(hosts[i], cfg.mirrors[hosts[i]])];
    }
    ghost var before := sections;
    for i := 0 to |http|
      invariant sections == before + seq(i, k requires 0 <= k < i => HttpSection(http[k]))
    {
      sections := sections + [HttpSection(http[i])];
    }
    text := Join(sections, "\n");
  }

  /** The one text of a configuration, whatever order the map was walked in. */
  method Render(cfg: Config) returns (text: string)
    ensures exists hosts, http :: MirrorHosts(cfg, hosts) && HttpHosts(cfg, http)
    ensures forall hosts, http | MirrorHosts(cfg, hosts) && HttpHosts(cfg, http) :: text == Text(cfg, hosts, http)
  {
    hide Text;
    var hosts := SortHosts(cfg.mirrors);
    var http := SortedUniqueHosts(cfg.mirrorHttp);
    text := Assemble(cfg, hosts, http);
    assert MirrorHosts(cfg, hosts) && HttpHosts(cfg, http);
    forall hs, ht | MirrorHosts(cfg, hs) && HttpHosts(cfg, ht) ensures hs == hosts && ht == http {
      ListingsAgree(hs, hosts);
      ListingsAgree(ht, http);
    }
  }

  lemma ListingsAgree(a: seq<string>, b: seq<string>)
    requires Sorted(StringLess, a) && Sorted(StringLess, b) && forall h :: h in a <==> h in b
    ensures a == b
  {
    StringsLinear(a);
    SortedUnique(StringLess, a, b);
  }

  /** Reordering or repeating the plaintext mirrors changes nothing. */
  lemma MirrorHttpIsASet(cfg: Config, other: Config, hosts: seq<string>, http: seq<string>)
    requires other == cfg.(mirrorHttp := other.mirrorHttp)
    requires forall h :: h != "" ==> (h in cfg.mirrorHttp <==> h in other.mirrorHttp)
    requires MirrorHosts(cfg, hosts) && HttpHosts(cfg, http)
    ensures MirrorHosts(other, hosts) && HttpHosts(other, http)
    ensures Text(cfg, hosts, http) == Text(other, hosts, http)
  {
  }

  /** A plaintext mirror that is also a mirrored host. */
  predicate Clash(cfg: Config, h: string) {
    h in cfg.mirrorHttp && h != "" && h in cfg.mirrors && cfg.mirrors[h] != []
  }

  lemma HostsDistinct(cfg: Config, hosts: seq<string>, http: seq<string>)
    requires MirrorHosts(cfg, hosts) && HttpHosts(cfg, http) && forall h <- cfg.mirrorHttp :: !Clash(cfg, h)
    ensures Distinct(hosts + http)
  {
    SortedDistinct(hosts);
    SortedDistinct(http);
    var all := hosts + http;
    forall i, j | 0 <= i < |hosts| <= j < |all| ensures all[i] != all[j] {
      assert all[i] in hosts && all[j] in http;
    }
  }

  /** TOML allows a table to be defined once: that holds exactly if no plaintext mirror is also a mirrored host. */
  lemma TablesDefinedOnce(cfg: Config, hosts: seq<string>, http: seq<string>)
    requires MirrorHosts(cfg, hosts) && HttpHosts(cfg, http)
    ensures Distinct(Headers(hosts + http)) <==> forall h <- cfg.mirrorHttp :: !Clash(cfg, h)
  {
    hide Header, Sorted;
    var all := hosts + http;
    if forall h <- cfg.mirrorHttp :: !Clash(cfg, h) {
      HostsDistinct(cfg, hosts, http);
      forall i, j | 0 <= i < j < |all| ensures Headers(all)[i] != Headers(all)[j] { HeaderInjective(all[i], all[j]); }
    } else {
      var h :| h in cfg.mirrorHttp && Clash(cfg, h);
      assert h in hosts && h in http;
      var i :| 0 <= i < |hosts| && hosts[i] == h;
      var j :| 0 <= j < |http| && http[j] == h;
      assert Headers(all)[i] == Headers(all)[|hosts| + j];
    }
  }

  function Headers(hosts: seq<string>): seq<string> {
    seq(|hosts|, i requires 0 <= i < |hosts| => Header(hosts[i]))
  }

  lemma HeaderInjective(a: string, b: string)
    ensures Header(a) == Header(b) ==> a == b
  {
    if Header(a) == Header(b) {
      var k := |"[registry."|;
      assert Header(a)[k..] == Quote(a) + "]\n" && Header(b)[k..] == Quote(b) + "]\n";
      QuoteReadsBack(a, "]\n");
      QuoteReadsBack(b, "]\n");
    }
  }

  lemma SortedDistinct(s: seq<string>)
    requires Sorted(StringLess, s)
    ensures Distinct(s)
  {
    forall i, j | 0 <= i < j < |s| ensures s[i] != s[j] { StringLessTotal(s[i], s[j]); }
  }
}
