/** The configuration file reader shared by the GPPN Go services: a TOML-like list of
    `key = value` lines laid over the defaults. The file's contents are the input; opening
    and reading the file are not modelled. Whitespace is Go's `unicode.IsSpace`. */
module Config {
  import opened Wrappers
  import opened Decimal
  import Text

  datatype AppConfig = AppConfig(name: string, port: int, logLevel: string, metricsPort: int)

  /** The two ways a readable file is rejected, each with the offending (trimmed) value. */
  datatype ConfigError = InvalidPort(value: string) | InvalidMetricsPort(value: string)

  /** `DefaultConfig`. */
  function DefaultConfig(name: string): (cfg: AppConfig)
    ensures cfg.name == name && cfg.logLevel == "info"
    ensures cfg.port == 8080 && cfg.metricsPort == 9090
  {
    AppConfig(name, 8080, "info", 9090)
  }

  // ----- Trimming -----

  /** `unicode.IsSpace`: the Latin-1 spaces and the other Unicode White_Space characters. */
  predicate IsSpace(c: char) {
    var n := c as int;
    n == 0x09 || n == 0x0A || n == 0x0B || n == 0x0C || n == 0x0D || n == 0x20 || n == 0x85 || n == 0xA0 ||
    n == 0x1680 || (0x2000 <= n <= 0x200A) || n == 0x2028 || n == 0x2029 || n == 0x202F || n == 0x205F || n == 0x3000
  }

  /** The cutset of `strings.Trim(value, "\"'")`. */
  predicate IsQuote(c: char) {
    c == '"' || c == '\''
  }

  /** The number of leading characters satisfying `drop`. */
  function Lead(s: string, drop: char -> bool): (n: nat)
    ensures n <= |s|
    ensures forall i :: 0 <= i < n ==> drop(s[i])
    ensures n < |s| ==> !drop(s[n])
  {
    if |s| > 0 && drop(s[0]) then
      var n := Lead(s[1..], drop);
      assert forall i :: 0 < i < |s| ==> s[i] == s[1..][i - 1];
      n + 1
    else 0
  }

  /** Drops the trailing characters satisfying `drop`. */
  function TrimRight(s: string, drop: char -> bool): (r: string)
    ensures |r| <= |s| && r == s[..|r|]
    ensures forall i :: |r| <= i < |s| ==> drop(s[i])
    ensures |r| > 0 ==> !drop(r[|r| - 1])
  {
    if |s| > 0 && drop(s[|s| - 1]) then
      var r := TrimRight(s[..|s| - 1], drop);
      assert forall i :: 0 <= i < |s| - 1 ==> s[i] == s[..|s| - 1][i];
      r
    else s
  }

  /** `strings.TrimFunc`: the part of s left after dropping the characters satisfying
      `drop` at both ends; nothing else is removed. */
  function Trim(s: string, drop: char -> bool): (r: string)
    ensures var a := Lead(s, drop);
            a + |r| <= |s| && r == s[a..a + |r|] && forall i :: a + |r| <= i < |s| ==> drop(s[i])
    ensures |r| > 0 ==> !drop(r[0]) && !drop(r[|r| - 1])
  {
    var a := Lead(s, drop);
    var r := TrimRight(s[a..], drop);
    assert s[a..][..|r|] == s[a..a + |r|];
    assert forall i :: a + |r| <= i < |s| ==> s[i] == s[a..][i - a];
    r
  }

  /** Trimming twice trims nothing more. */
  lemma TrimIdempotent(s: string, drop: char -> bool)
    ensures Trim(Trim(s, drop), drop) == Trim(s, drop)
  {
  }

  /** A string with kept characters at both ends is its own trim. */
  lemma TrimKeeps(s: string, drop: char -> bool)
    requires |s| > 0 ==> !drop(s[0]) && !drop(s[|s| - 1])
    ensures Trim(s, drop) == s
  {
  }

  /** `strings.TrimSpace`. */
  function TrimSpace(s: string): (r: string)
    ensures |r| > 0 ==> !IsSpace(r[0]) && !IsSpace(r[|r| - 1])
    ensures forall c :: c in r ==> c in s
  {
    Trim(s, IsSpace)
  }

  // ----- Lines -----

  /** What one line of the file says: nothing, or `key = value`. */
  datatype Line = Skip | Setting(key: string, value: string)

  /** The position of the first c in s. */
  function IndexOf(s: string, c: char): (r: Option<nat>)
    ensures r.None? <==> c !in s
    ensures r.Some? ==> r.value < |s| && s[r.value] == c && c !in s[..r.value]
    ensures r.Some? ==> forall k :: 0 <= k < r.value ==> s[k] != c
  {
    if |s| == 0 then None
    else if s[0] == c then Some(0)
    else match IndexOf(s[1..], c)
      case None => None
      case Some(i) =>
        assert s[..i + 1] == [s[0]] + s[1..][..i];
        Some(i + 1)
  }

  /** The body of the scanning loop: the trimmed line is skipped when empty, a comment
      ('#'), a table header ('[') or without '='; otherwise it splits at the first '=',
      both sides are trimmed, and quote characters are stripped from the value's ends. */
  function ParseLine(raw: string): (r: Line)
    ensures var line := TrimSpace(raw);
            r.Setting? <==> |line| > 0 && line[0] != '#' && line[0] != '[' && '=' in line
    ensures r.Setting? ==> '=' !in r.key
    ensures r.Setting? && |r.key| > 0 ==> !IsSpace(r.key[0]) && !IsSpace(r.key[|r.key| - 1])
    ensures r.Setting? && |r.value| > 0 ==> !IsQuote(r.value[0]) && !IsQuote(r.value[|r.value| - 1])
  {
    var line := TrimSpace(raw);
    if |line| == 0 || line[0] == '#' || line[0] == '[' then Skip
    else match IndexOf(line, '=')
      case None => Skip
      case Some(i) => Setting(TrimSpace(line[..i]), Trim(TrimSpace(line[i + 1..]), IsQuote))
  }

  /** One dropped character after a string with kept ends is trimmed off. */
  lemma TrimTrailing(s: string, c: char, drop: char -> bool)
    requires drop(c) && (|s| > 0 ==> !drop(s[0]) && !drop(s[|s| - 1]))
    ensures Trim(s + [c], drop) == s
  {
    assert (s + [c])[..|s|] == s;
    if |s| > 0 {
      assert (s + [c])[0] == s[0];
    }
  }

  /** One dropped character before a string with kept ends is trimmed off. */
  lemma TrimLeading(c: char, s: string, drop: char -> bool)
    requires drop(c) && (|s| > 0 ==> !drop(s[0]) && !drop(s[|s| - 1]))
    ensures Trim([c] + s, drop) == s
  {
    assert ([c] + s)[1..] == s;
  }

  /** A string with kept ends between two dropped characters is trimmed back to itself. */
  lemma TrimEnclosed(c: char, s: string, drop: char -> bool)
    requires drop(c) && (|s| > 0 ==> !drop(s[0]) && !drop(s[|s| - 1]))
    ensures Trim([c] + s + [c], drop) == s
  {
    var t := [c] + s + [c];
    assert t[1..] == s + [c];
    assert (s + [c])[..|s|] == s;
    if |s| > 0 {
      assert t[1] == s[0];
    }
  }

  /** The first '=' of `a + "=" + b` is the one after a, when a has none. */
  lemma IndexOfAfter(a: string, b: string)
    requires '=' !in a
    ensures IndexOf(a + ['='] + b, '=') == Some(|a|)
  {
    var s := a + ['='] + b;
    assert s[|a|] == '=';
    assert forall k :: 0 <= k < |a| ==> s[k] == a[k] && s[k] != '=';
  }

  /** How an already trimmed line with its first '=' at i is read. */
  lemma ParseTrimmedLine(line: string, i: nat)
    requires TrimSpace(line) == line && |line| > 0 && line[0] != '#' && line[0] != '['
    requires IndexOf(line, '=') == Some(i)
    ensures ParseLine(line) == Setting(TrimSpace(line[..i]), Trim(TrimSpace(line[i + 1..]), IsQuote))
  {
  }

  /** How a setting is written by hand: `key = "value"`. */
  function Render(key: string, value: string): string {
    key + " = \"" + value + "\""
  }

  /** A rendered line is the key and a space, the '=', then a space and the quoted value. */
  lemma RenderSplit(key: string, value: string)
    ensures Render(key, value) == (key + [' ']) + ['='] + ([' '] + (['"'] + value + ['"']))
  {
    assert " = \"" == [' '] + ['='] + [' '] + ['"'];
    assert "\"" == ['"'];
  }

  /** `left + "=" + right` with no '=' in left and no space at either end is already
      trimmed and splits at the '=' after left. */
  lemma SplitShape(left: string, right: string)
    requires |left| > 0 && '=' !in left && !IsSpace(left[0])
    requires |right| > 0 && !IsSpace(right[|right| - 1])
    ensures var line := left + ['='] + right;
            TrimSpace(line) == line && line[0] == left[0] && IndexOf(line, '=') == Some(|left|) &&
            line[..|left|] == left && line[|left| + 1..] == right
  {
    var line := left + ['='] + right;
    assert line[0] == left[0] && line[|line| - 1] == right[|right| - 1];
    TrimKeeps(line, IsSpace);
    IndexOfAfter(left, right);
    assert line[..|left|] == left && line[|left| + 1..] == right;
  }

  /** The shape of a rendered line: already trimmed, split at the '=' after the key. */
  lemma RenderedShape(key: string, value: string)
    requires |key| > 0 && '=' !in key && !IsSpace(key[0])
    ensures var line := Render(key, value);
            TrimSpace(line) == line && line[0] == key[0] && IndexOf(line, '=') == Some(|key| + 1) &&
            line[..|key| + 1] == key + [' '] && line[|key| + 2..] == [' '] + (['"'] + value + ['"'])
  {
    var right := [' '] + (['"'] + value + ['"']);
    assert right[|right| - 1] == '"';
    RenderSplit(key, value);
    SplitShape(key + [' '], right);
  }

  /** A line written by hand as `key = "value"` reads back as that setting when the key
      is a plain word and the value does not itself start or end with a quote. */
  lemma ParseLineRoundTrip(key: string, value: string)
    requires |key| > 0 && key[0] != '#' && key[0] != '[' && '=' !in key
    requires !IsSpace(key[0]) && !IsSpace(key[|key| - 1])
    requires |value| > 0 ==> !IsQuote(value[0]) && !IsQuote(value[|value| - 1])
    ensures ParseLine(Render(key, value)) == Setting(key, value)
  {
    var line := Render(key, value);
    RenderedShape(key, value);
    ParseTrimmedLine(line, |key| + 1);
    TrimTrailing(key, ' ', IsSpace);
    TrimLeading(' ', ['"'] + value + ['"'], IsSpace);
    TrimEnclosed('"', value, IsQuote);
  }

  // ----- Applying settings -----

  /** The four recognised keys. */
  predicate Known(key: string) {
    key == "name" || key == "port" || key == "log_level" || key == "metrics_port"
  }

  /** The error a line raises: a port setting whose value `strconv.Atoi` rejects. */
  function LineError(l: Line): (e: Option<ConfigError>)
    ensures e.Some? <==> l.Setting? && (l.key == "port" || l.key == "metrics_port") && Atoi(l.value).None?
  {
    if l.Setting? && l.key == "port" && Atoi(l.value).None? then Some(InvalidPort(l.value))
    else if l.Setting? && l.key == "metrics_port" && Atoi(l.value).None? then Some(InvalidMetricsPort(l.value))
    else None
  }

  /** A line the reader accepts. */
  predicate Accepted(l: Line) {
    LineError(l).None?
  }

  /** The `switch key` of the loop: a known key sets its field (ports through
      `strconv.Atoi`), an unknown key or a skipped line changes nothing. A bad port
      stops with an error and the configuration as it was. */
  function Apply(cfg: AppConfig, l: Line): (r: (AppConfig, Option<ConfigError>))
    ensures r.1 == LineError(l)
    ensures r.1.Some? ==> r.0 == cfg
    ensures !l.Setting? || !Known(l.key) ==> r == (cfg, None)
    ensures l.Setting? && Accepted(l) ==>
              r.0.name == (if l.key == "name" then l.value else cfg.name) &&
              r.0.logLevel == (if l.key == "log_level" then l.value else cfg.logLevel) &&
              r.0.port == (if l.key == "port" then Atoi(l.value).value else cfg.port) &&
              r.0.metricsPort == (if l.key == "metrics_port" then Atoi(l.value).value else cfg.metricsPort)
  {
    match l
    case Skip => (cfg, None)
    case Setting(key, value) =>
      if key == "name" then (cfg.(name := value), None)
      else if key == "port" then
        match Atoi(value)
        case None => (cfg, Some(InvalidPort(value)))
        case Some(p) => (cfg.(port := p), None)
      else if key == "log_level" then (cfg.(logLevel := value), None)
      else if key == "metrics_port" then
        match Atoi(value)
        case None => (cfg, Some(InvalidMetricsPort(value)))
        case Some(p) => (cfg.(metricsPort := p), None)
      else (cfg, None)
  }

  /** Every line of the file as the loop reads it. */
  function ParseLines(lines: seq<string>): (ls: seq<Line>)
    ensures |ls| == |lines| && forall i :: 0 <= i < |lines| ==> ls[i] == ParseLine(lines[i])
  {
    seq(|lines|, i requires 0 <= i < |lines| => ParseLine(lines[i]))
  }

  /** The scanning loop over the read lines, from `cfg`: it stops at the first rejected
      line with that line's error, and otherwise applies every line in turn. */
  function Load(cfg: AppConfig, ls: seq<Line>): (r: (AppConfig, Option<ConfigError>))
    ensures r.1.None? <==> forall i :: 0 <= i < |ls| ==> Accepted(ls[i])
    ensures r.1.Some? ==> exists i :: 0 <= i < |ls| && !Accepted(ls[i]) &&
                                      (forall j :: 0 <= j < i ==> Accepted(ls[j])) &&
                                      r.1 == LineError(ls[i])
    decreases |ls|
  {
    if |ls| == 0 then (cfg, None)
    else
      var (c1, e1) := Apply(cfg, ls[0]);
      if e1.Some? then (c1, e1)
      else
        var r := Load(c1, ls[1..]);
        assert forall i :: 0 < i < |ls| ==> ls[i] == ls[1..][i - 1];
        if r.1.Some? then
          var i :| 0 <= i < |ls[1..]| && !Accepted(ls[1..][i]) &&
                   (forall j :: 0 <= j < i ==> Accepted(ls[1..][j])) &&
                   r.1 == LineError(ls[1..][i]);
          assert ls[i + 1] == ls[1..][i];
          r
        else r
  }

  /** `LoadFromFile` on the file's contents: the lines laid over `DefaultConfig("")`,
      failing exactly when some line sets a port to a non-integer. The scanner's lines
      are the text between '\n's; a trailing '\r' and an empty last segment make no
      difference once the line is trimmed. */
  function LoadFromFile(contents: string): (r: (AppConfig, Option<ConfigError>))
    ensures r.1.None? <==> EveryLineAccepted(Text.Split(contents, '\n'))
  {
    var lines := Text.Split(contents, '\n');
    LoadLines(lines);
    Load(DefaultConfig(""), ParseLines(lines))
  }

  /** Every raw line parses to an accepted line. */
  predicate EveryLineAccepted(lines: seq<string>) {
    forall i :: 0 <= i < |lines| ==> Accepted(ParseLine(lines[i]))
  }

  /** The loop over parsed lines reports no error exactly when every raw line parses to an
      accepted one. */
  lemma LoadLines(lines: seq<string>)
    ensures Load(DefaultConfig(""), ParseLines(lines)).1.None? <==> EveryLineAccepted(lines)
  {
    var ls := ParseLines(lines);
    if Load(DefaultConfig(""), ls).1.None? {
      forall i | 0 <= i < |lines| ensures Accepted(ParseLine(lines[i])) {
        assert ls[i] == ParseLine(lines[i]);
      }
    } else {
      var i :| 0 <= i < |ls| && !Accepted(ls[i]);
      assert ls[i] == ParseLine(lines[i]);
    }
  }

  // ----- Last setting wins -----

  /** The value of the last line that sets `key`, if any: a reference for the loop's
      outcome that does not mention configurations. */
  function LastValue(ls: seq<Line>, key: string): (r: Option<string>)
    ensures r.Some? ==> exists i :: 0 <= i < |ls| && ls[i] == Setting(key, r.value)
    ensures r.None? <==> forall i :: 0 <= i < |ls| ==> !(ls[i].Setting? && ls[i].key == key)
  {
    if |ls| == 0 then None
    else
      assert forall i :: 0 < i < |ls| ==> ls[i] == ls[1..][i - 1];
      match LastValue(ls[1..], key)
      case Some(v) =>
        var i :| 0 <= i < |ls[1..]| && ls[1..][i] == Setting(key, v);
        assert ls[i + 1] == ls[1..][i];
        Some(v)
      case None =>
        if ls[0].Setting? && ls[0].key == key then Some(ls[0].value) else None
  }

  function OrElse(o: Option<string>, d: string): string {
    if o.Some? then o.value else d
  }

  function PortOrElse(o: Option<string>, d: int): int {
    if o.Some? && Atoi(o.value).Some? then Atoi(o.value).value else d
  }

  /** An accepted first line is applied and the loop carries on with the rest. */
  lemma LoadAccepted(cfg: AppConfig, ls: seq<Line>)
    requires |ls| > 0 && Accepted(ls[0])
    ensures Load(cfg, ls).0 == Load(Apply(cfg, ls[0]).0, ls[1..]).0
  {
  }

  /** The last setting of `key` lies in the tail, or else it is the head. */
  lemma LastValueCons(ls: seq<Line>, key: string)
    requires |ls| > 0
    ensures LastValue(ls, key) ==
            if LastValue(ls[1..], key).Some? then LastValue(ls[1..], key)
            else if ls[0].Setting? && ls[0].key == key then Some(ls[0].value) else None
  {
  }

  /** When every line is accepted, each field holds the value of the last line that sets
      it, or the starting value when none does; all other lines are ignored. */
  lemma {:induction false} LastSettingWins(cfg: AppConfig, ls: seq<Line>)
    requires forall i :: 0 <= i < |ls| ==> Accepted(ls[i])
    ensures var c := Load(cfg, ls).0;
            c.name == OrElse(LastValue(ls, "name"), cfg.name) &&
            c.logLevel == OrElse(LastValue(ls, "log_level"), cfg.logLevel) &&
            c.port == PortOrElse(LastValue(ls, "port"), cfg.port) &&
            c.metricsPort == PortOrElse(LastValue(ls, "metrics_port"), cfg.metricsPort)
    decreases |ls|
  {
    if |ls| > 0 {
      var c1 := Apply(cfg, ls[0]).0;
      assert forall i :: 0 <= i < |ls[1..]| ==> ls[1..][i] == ls[i + 1];
      LastSettingWins(c1, ls[1..]);
      LoadAccepted(cfg, ls);
      LastValueCons(ls, "name");
      LastValueCons(ls, "log_level");
      LastValueCons(ls, "port");
      LastValueCons(ls, "metrics_port");
    }
  }

  /** A file of comments, headers and blank lines only leaves the defaults. */
  lemma {:induction false} CommentsOnly(ls: seq<Line>)
    requires forall i :: 0 <= i < |ls| ==> ls[i].Skip?
    ensures Load(DefaultConfig(""), ls) == (DefaultConfig(""), None)
  {
    assert forall i :: 0 <= i < |ls| ==> Accepted(ls[i]);
    LastSettingWins(DefaultConfig(""), ls);
    assert LastValue(ls, "name").None? && LastValue(ls, "log_level").None?;
    assert LastValue(ls, "port").None? && LastValue(ls, "metrics_port").None?;
  }

  /** A later line setting the same key overrides an earlier one, an unknown key changes
      nothing, and a rejected port stops the loop before the lines after it. */
  lemma LaterLineOverrides(cfg: AppConfig, x: string, y: string, rest: seq<Line>)
    ensures Load(cfg, [Setting("name", x), Setting("name", y)]) == (cfg.(name := y), None)
    ensures Load(cfg, [Setting("colour", x)]) == (cfg, None)
    ensures Load(cfg, [Setting("port", "eighty")] + rest) == (cfg, Some(InvalidPort("eighty")))
  {
    var two := [Setting("name", x), Setting("name", y)];
    assert two[1..] == [Setting("name", y)] && two[1..][1..] == [];
    assert Load(cfg.(name := x), [Setting("name", y)]) == (cfg.(name := y), None);
    AtoiRejectsNonDigit("eighty", 0);
    assert ([Setting("port", "eighty")] + rest)[0] == Setting("port", "eighty");
  }
}
