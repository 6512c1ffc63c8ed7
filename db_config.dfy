/**
 * `load_db_config`: reads `key=value` lines into the connection settings, with `port`
 * defaulting to 5432 and host, user, password and database required.
 */
module DbConfig {
  import opened Wrappers
  import opened Strings

  const DefaultPort := 5432

  /** The settings dictionary while the lines are read; None stands for Python's `None`. */
  datatype Fields = Fields(host: Option<string>, port: int, user: Option<string>, password: Option<string>, database: Option<string>)

  /** The dictionary before the first line. */
  const Initial := Fields(None, DefaultPort, None, None, None)

  /** The returned settings: every required field present and non-empty. */
  datatype Settings = Settings(host: string, port: int, user: string, password: string, database: string)

  /** `int(value)` failing on a `port` line, or a required field missing or empty (`ValueError` either way). */
  datatype ConfigError = BadPort(text: string) | MissingField(key: string)

  predicate IsQuote(c: char) { c == '\'' || c == '"' }

  /** A line without `=`, or whose first non-blank character is `#`, is passed over. */
  predicate IsSkipped(line: string) {
    '=' !in line || StartsWith(LStrip(line), "#")
  }

  /** The key of an assignment line: the text before the first `=`, stripped and lower-cased. */
  function KeyOf(line: string): string
    requires '=' in line
  {
    var eq := IndexOf(line, '=').value;
    LowerAscii(Strip(line[..eq]))
  }

  /** The value of an assignment line: the text after the first `=`, stripped of blanks and then of quotes. */
  function ValueOf(line: string): string
    requires '=' in line
  {
    var eq := IndexOf(line, '=').value;
    Trim(Strip(line[eq + 1..]), IsQuote)
  }

  /** Digits, with each `_` between two digits: the body Python's `int()` accepts. */
  predicate IsIntBody(t: string) {
    |t| > 0 && forall k :: 0 <= k < |t| ==> BodyCharAt(t, k)
  }

  predicate BodyCharAt(t: string, k: nat)
    requires k < |t|
  {
    IsDigit(t[k]) || (t[k] == '_' && 0 < k < |t| - 1 && IsDigit(t[k - 1]) && IsDigit(t[k + 1]))
  }

  predicate DigitsOrUnderscores(t: string) {
    forall k :: 0 <= k < |t| ==> IsDigit(t[k]) || t[k] == '_'
  }

  function DropUnderscores(t: string): (r: string)
    requires DigitsOrUnderscores(t)
    ensures AllDigits(r)
  {
    if |t| == 0 then ""
    else (if t[0] == '_' then "" else [t[0]]) + DropUnderscores(t[1..])
  }

  /** Python's `int(s)` in base 10 over ASCII digits: blanks around, an optional sign, digit groups joined by `_`. */
  function ParseInt(s: string): Option<int> {
    var t := Strip(s);
    var signed := |t| > 0 && (t[0] == '+' || t[0] == '-');
    var body := if signed then t[1..] else t;
    if IsIntBody(body) then
      assert DigitsOrUnderscores(body) by {
        forall k | 0 <= k < |body| ensures IsDigit(body[k]) || body[k] == '_' {
          assert BodyCharAt(body, k);
        }
      }
      var magnitude: int := DigitsValue(DropUnderscores(body));
      Some(if signed && t[0] == '-' then -magnitude else magnitude)
    else None
  }

  /** `data_dic[key] = int(value) if key == "port" else value`, for keys already in the dictionary. */
  function Assign(f: Fields, key: string, value: string): Result<Fields, ConfigError> {
    if key == "host" then Success(f.(host := Some(value)))
    else if key == "port" then
      match ParseInt(value)
      case Some(n) => Success(f.(port := n))
      case None => Failure(BadPort(value))
    else if key == "user" then Success(f.(user := Some(value)))
    else if key == "password" then Success(f.(password := Some(value)))
    else if key == "database" then Success(f.(database := Some(value)))
    else Success(f)
  }

  /** A line as the loop sees it: passed over, or a key and a value. */
  datatype Line = Skipped | Assignment(key: string, value: string)

  function Classify(line: string): (r: Line)
    ensures r.Skipped? <==> IsSkipped(line)
  {
    if IsSkipped(line) then Skipped else Assignment(KeyOf(line), ValueOf(line))
  }

  /** The effect of one line on the dictionary. */
  function Step(f: Fields, l: Line): Result<Fields, ConfigError> {
    match l
    case Skipped => Success(f)
    case Assignment(key, value) => Assign(f, key, value)
  }

  /** The dictionary after reading the lines in order, or the error of the first bad port value. */
  function ScanLines(ls: seq<Line>): Result<Fields, ConfigError> {
    if |ls| == 0 then Success(Initial)
    else match ScanLines(ls[..|ls| - 1])
      case Failure(e) => Failure(e)
      case Success(f) => Step(f, ls[|ls| - 1])
  }

  function Classified(lines: seq<string>): (r: seq<Line>)
    ensures |r| == |lines| && forall k :: 0 <= k < |lines| ==> r[k] == Classify(lines[k])
  {
    seq(|lines|, k requires 0 <= k < |lines| => Classify(lines[k]))
  }

  function Scan(lines: seq<string>): Result<Fields, ConfigError> {
    ScanLines(Classified(lines))
  }

  predicate Present(v: Option<string>) { v.Some? && v.value != "" }

  /** The required-field checks, in the order host, user, password, database. */
  function Finish(f: Fields): (r: Result<Settings, ConfigError>)
    ensures r.Success? <==> Present(f.host) && Present(f.user) && Present(f.password) && Present(f.database)
    ensures r.Success? ==> r.value == Settings(f.host.value, f.port, f.user.value, f.password.value, f.database.value)
    ensures r == Failure(MissingField("host")) <==> !Present(f.host)
    ensures r == Failure(MissingField("user")) <==> Present(f.host) && !Present(f.user)
    ensures r == Failure(MissingField("password")) <==> Present(f.host) && Present(f.user) && !Present(f.password)
    ensures r == Failure(MissingField("database")) <==> Present(f.host) && Present(f.user) && Present(f.password) && !Present(f.database)
  {
    if !Present(f.host) then Failure(MissingField("host"))
    else if !Present(f.user) then Failure(MissingField("user"))
    else if !Present(f.password) then Failure(MissingField("password"))
    else if !Present(f.database) then Failure(MissingField("database"))
    else Success(Settings(f.host.value, f.port, f.user.value, f.password.value, f.database.value))
  }

  /** What `load_db_config` returns, or the error it raises, for the lines of the file. */
  function LoadSpec(lines: seq<string>): Result<Settings, ConfigError> {
    match Scan(lines)
    case Failure(e) => Failure(e)
    case Success(f) => Finish(f)
  }

  /** `load_db_config`: the line loop over the dictionary, then the required-field checks. */
  method LoadDbConfig(lines: seq<string>) returns (r: Result<Settings, ConfigError>)
    ensures r == LoadSpec(lines)
  {
    var fields := Initial;
    var i := 0;
    while i < |lines|
      invariant 0 <= i <= |lines|
      invariant ScanLines(Classified(lines)[..i]) == Success(fields)
    {
      var line := Classify(lines[i]);
      ScanPrefixStep(Classified(lines), i);
      match line {
        case Skipped =>
        case Assignment(key, value) =>
          if key == "host" {
            fields := fields.(host := Some(value));
          } else if key == "port" {
            var port := ParseInt(value);
            if port.None? {
              ScanStopsAt(Classified(lines), i + 1);
              return Failure(BadPort(value));
            }
            fields := fields.(port := port.value);
          } else if key == "user" {
            fields := fields.(user := Some(value));
          } else if key == "password" {
            fields := fields.(password := Some(value));
          } else if key == "database" {
            fields := fields.(database := Some(value));
          }
      }
      i := i + 1;
    }
    assert Classified(lines)[..i] == Classified(lines);
    if fields.host.None? || fields.host.value == "" {
      return Failure(MissingField("host"));
    }
    if fields.user.None? || fields.user.value == "" {
      return Failure(MissingField("user"));
    }
    if fields.password.None? || fields.password.value == "" {
      return Failure(MissingField("password"));
    }
    if fields.database.None? || fields.database.value == "" {
      return Failure(MissingField("database"));
    }
    r := Success(Settings(fields.host.value, fields.port, fields.user.value, fields.password.value, fields.database.value));
  }

  /** A bad port value ends the reading: later lines are never looked at. */
  lemma {:induction false} ScanFailureSticks(ls: seq<Line>, more: seq<Line>)
    requires ScanLines(ls).Failure?
    ensures ScanLines(ls + more) == ScanLines(ls)
    decreases |more|
  {
    if |more| > 0 {
      var init := more[..|more| - 1];
      ScanFailureSticks(ls, init);
      assert (ls + more)[..|ls + more| - 1] == ls + init;
    } else {
      assert ls + more == ls;
    }
  }

  /** The scan of the first `i + 1` lines is the scan of the first `i` and one more step. */
  lemma ScanPrefixStep(ls: seq<Line>, i: nat)
    requires i < |ls|
    ensures ScanLines(ls[..i + 1]) == match ScanLines(ls[..i]) case Failure(e) => Failure(e) case Success(f) => Step(f, ls[i])
  {
    assert ls[..i + 1][..i] == ls[..i];
  }

  /** Once the scan of a prefix has failed, that failure is the scan of all the lines. */
  lemma ScanStopsAt(ls: seq<Line>, i: nat)
    requires i <= |ls| && ScanLines(ls[..i]).Failure?
    ensures ScanLines(ls) == ScanLines(ls[..i])
  {
    ScanFailureSticks(ls[..i], ls[i..]);
    assert ls[..i] + ls[i..] == ls;
  }

  /** A passed-over line has no effect, wherever it stands. */
  lemma {:induction false} SkippedLineIgnored(before: seq<Line>, after: seq<Line>)
    ensures ScanLines(before + [Skipped] + after) == ScanLines(before + after)
    decreases |after|
  {
    if |after| == 0 {
      assert (before + [Skipped] + after)[..|before|] == before;
      assert before + after == before;
    } else {
      var init := after[..|after| - 1];
      SkippedLineIgnored(before, init);
      assert (before + [Skipped] + after)[..|before| + |after|] == before + [Skipped] + init;
      assert (before + after)[..|before| + |after| - 1] == before + init;
    }
  }

  lemma ClassifiedConcat(a: seq<string>, b: seq<string>)
    ensures Classified(a + b) == Classified(a) + Classified(b)
  {
    var l, r := Classified(a + b), Classified(a) + Classified(b);
    forall k | 0 <= k < |l| ensures l[k] == r[k] {
      if k < |a| { assert (a + b)[k] == a[k]; } else { assert (a + b)[k] == b[k - |a|]; }
    }
  }

  /** Comment lines and lines without `=` can be dropped from the file without changing the result. */
  lemma SkippedLinesIgnored(before: seq<string>, line: string, after: seq<string>)
    requires IsSkipped(line)
    ensures LoadSpec(before + [line] + after) == LoadSpec(before + after)
  {
    ClassifiedConcat(before, [line]);
    ClassifiedConcat(before + [line], after);
    ClassifiedConcat(before, after);
    assert Classified([line]) == [Skipped];
    SkippedLineIgnored(Classified(before), Classified(after));
  }

  /** The text field a key names, None for the port and unknown keys. */
  function TextField(f: Fields, key: string): Option<string> {
    if key == "host" then f.host
    else if key == "user" then f.user
    else if key == "password" then f.password
    else if key == "database" then f.database
    else None
  }

  /** Assigning a key leaves every other field as it was. */
  lemma AssignOthersUnchanged(f: Fields, key: string, value: string, other: string)
    requires Assign(f, key, value).Success? && key != other
    ensures TextField(Assign(f, key, value).value, other) == TextField(f, other)
    ensures other == "port" ==> Assign(f, key, value).value.port == f.port
  {
  }

  /** Line `i` assigns `key` and no later line does. */
  predicate LastAssigns(ls: seq<Line>, i: nat, key: string) {
    && i < |ls| && ls[i] .Assignment? && ls[i].key == key
    && forall j :: i < j < |ls| && ls[j].Assignment? ==> ls[j].key != key
  }

  /** The last assignment of a key decides the field: the value for a text field, `int(value)` for the port. */
  lemma {:induction false} LastAssignmentWinsIn(ls: seq<Line>, i: nat, key: string)
    requires key in ["host", "port", "user", "password", "database"]
    requires LastAssigns(ls, i, key) && ScanLines(ls).Success?
    ensures key != "port" ==> TextField(ScanLines(ls).value, key) == Some(ls[i].value)
    ensures key == "port" ==> ParseInt(ls[i].value) == Some(ScanLines(ls).value.port)
  {
    var init := ls[..|ls| - 1];
    var last := ls[|ls| - 1];
    assert ScanLines(init).Success?;
    if i < |ls| - 1 {
      assert LastAssigns(init, i, key);
      LastAssignmentWinsIn(init, i, key);
      if last.Assignment? {
        AssignOthersUnchanged(ScanLines(init).value, last.key, last.value, key);
      }
    }
  }

  /** No line assigns `key`. */
  predicate NeverAssigns(ls: seq<Line>, key: string) {
    forall j :: 0 <= j < |ls| && ls[j].Assignment? ==> ls[j].key != key
  }

  /** A key no line assigns keeps its initial value: the port 5432, a text field missing. */
  lemma {:induction false} UnassignedKeepsDefault(ls: seq<Line>, key: string)
    requires NeverAssigns(ls, key) && ScanLines(ls).Success?
    ensures ScanLines(ls).value.port == DefaultPort || key != "port"
    ensures TextField(ScanLines(ls).value, key) == TextField(Initial, key)
  {
    if |ls| > 0 {
      var init := ls[..|ls| - 1];
      var last := ls[|ls| - 1];
      assert ScanLines(init).Success?;
      assert NeverAssigns(init, key);
      UnassignedKeepsDefault(init, key);
      if last.Assignment? {
        AssignOthersUnchanged(ScanLines(init).value, last.key, last.value, key);
      }
    }
  }

  /** In terms of the file: the last line for a key decides it, and without one the port is 5432 and a required field is refused. */
  lemma LastLineWins(lines: seq<string>, i: nat, key: string)
    requires key in ["host", "port", "user", "password", "database"]
    requires i < |lines| && !IsSkipped(lines[i]) && KeyOf(lines[i]) == key
    requires forall j :: i < j < |lines| && !IsSkipped(lines[j]) ==> KeyOf(lines[j]) != key
    requires LoadSpec(lines).Success?
    ensures key != "port" ==> TextField(Scan(lines).value, key) == Some(ValueOf(lines[i]))
    ensures key == "port" ==> ParseInt(ValueOf(lines[i])) == Some(LoadSpec(lines).value.port)
  {
    LastAssignmentWinsIn(Classified(lines), i, key);
  }

  lemma PortDefaultsTo5432(lines: seq<string>)
    requires forall j :: 0 <= j < |lines| && !IsSkipped(lines[j]) ==> KeyOf(lines[j]) != "port"
    requires LoadSpec(lines).Success?
    ensures LoadSpec(lines).value.port == DefaultPort
  {
    UnassignedKeepsDefault(Classified(lines), "port");
  }

  lemma MissingFieldRefused(lines: seq<string>, key: string)
    requires key in ["host", "user", "password", "database"]
    requires forall j :: 0 <= j < |lines| && !IsSkipped(lines[j]) ==> KeyOf(lines[j]) != key
    ensures LoadSpec(lines).Failure?
  {
    if Scan(lines).Success? {
      UnassignedKeepsDefault(Classified(lines), key);
    }
  }

  /** Decimal digits of a natural number, most significant first. */
  function DecimalText(n: nat): (r: string)
    ensures |r| > 0 && AllDigits(r)
  {
    if n < 10 then [('0' as int + n) as char]
    else DecimalText(n / 10) + [('0' as int + n % 10) as char]
  }

  lemma {:induction false} DecimalTextValue(n: nat)
    ensures DigitsValue(DecimalText(n)) == n
  {
    var r := DecimalText(n);
    if n >= 10 {
      DecimalTextValue(n / 10);
      assert r[..|r| - 1] == DecimalText(n / 10);
    } else {
      assert r[..0] == [];
    }
  }

  /** `str(n)` for an integer. */
  function IntText(n: int): string {
    if n < 0 then "-" + DecimalText(-n) else DecimalText(n)
  }

  /** Text that neither blank- nor quote-stripping changes. */
  predicate Plain(v: string) {
    |v| > 0 && !IsSpace(v[0]) && !IsQuote(v[0]) && !IsSpace(v[|v| - 1]) && !IsQuote(v[|v| - 1])
  }

  /** Trimming leaves text whose end characters are not dropped as it is. */
  lemma TrimKeeps(v: string, drop: char -> bool)
    requires |v| > 0 && !drop(v[0]) && !drop(v[|v| - 1])
    ensures TrimLeft(v, drop) == v && Trim(v, drop) == v
  {
  }

  lemma PlainIsKept(v: string)
    requires Plain(v)
    ensures Trim(Strip(v), IsQuote) == v && Strip(v) == v
  {
    TrimKeeps(v, IsSpace);
    TrimKeeps(v, IsQuote);
  }

  lemma {:induction false} DropUnderscoresOfDigits(t: string)
    requires AllDigits(t)
    ensures DigitsOrUnderscores(t) && DropUnderscores(t) == t
  {
    if |t| > 0 {
      DropUnderscoresOfDigits(t[1..]);
      assert t == [t[0]] + t[1..];
    }
  }

  /** A run of digits is an integer body whose value is its digits' value. */
  lemma DigitsParse(body: string)
    requires |body| > 0 && AllDigits(body)
    ensures IsIntBody(body) && DigitsOrUnderscores(body) && DropUnderscores(body) == body
  {
    forall k | 0 <= k < |body| ensures BodyCharAt(body, k) { }
    DropUnderscoresOfDigits(body);
  }

  /** `str(n)` has a digit or a minus sign at its start and a digit at its end. */
  lemma IntTextPlain(n: int)
    ensures Plain(IntText(n))
  {
    var body := DecimalText(if n < 0 then -n else n);
    var t := IntText(n);
    assert IsDigit(body[0]) && IsDigit(body[|body| - 1]);
    assert t[|t| - 1] == body[|body| - 1];
    assert t[0] == '-' || t[0] == body[0];
  }

  /** `int(str(n)) == n`. */
  lemma ParseIntText(n: int)
    ensures Plain(IntText(n)) && ParseInt(IntText(n)) == Some(n)
  {
    var m: nat := if n < 0 then -n else n;
    var body := DecimalText(m);
    var t := IntText(n);
    IntTextPlain(n);
    TrimKeeps(t, IsSpace);
    assert Strip(t) == t;
    DigitsParse(body);
    DecimalTextValue(m);
    if n < 0 {
      assert t[1..] == body && t[0] == '-';
    } else {
      assert t == body && t[0] != '-' && t[0] != '+';
    }
  }

  /** The line `key=value` the settings are written as. */
  function SettingLine(key: string, value: string): string {
    key + "=" + value
  }

  /** Writing each setting on its own line, in the order of the dictionary. */
  function Render(s: Settings): seq<string> {
    [ SettingLine("host", s.host), SettingLine("port", IntText(s.port)), SettingLine("user", s.user),
      SettingLine("password", s.password), SettingLine("database", s.database) ]
  }

  predicate IsLowerWord(key: string) {
    |key| > 0 && forall k :: 0 <= k < |key| ==> 'a' <= key[k] <= 'z'
  }

  lemma LowerWordKeys()
    ensures IsLowerWord("host") && IsLowerWord("port") && IsLowerWord("user")
    ensures IsLowerWord("password") && IsLowerWord("database")
  {
  }

  /** A lower-case key reads back as itself. */
  lemma LowerWordIsKey(key: string)
    requires IsLowerWord(key)
    ensures Strip(key) == key && LowerAscii(key) == key && '=' !in key
  {
    TrimKeeps(key, IsSpace);
  }

  /** A written setting line reads back as that key and value. */
  lemma SettingLineReads(key: string, value: string)
    requires IsLowerWord(key) && Plain(value)
    ensures Classify(SettingLine(key, value)) == Assignment(key, value)
  {
    var line := SettingLine(key, value);
    LowerWordIsKey(key);
    assert line[|key|] == '=' && line[..|key|] == key;
    assert IndexOf(line, '=') == Some(|key|);
    assert line[|key| + 1..] == value;
    assert !IsSpace(line[0]) && line[0] != '#';
    assert LStrip(line) == line;
    assert !StartsWith(LStrip(line), "#");
    PlainIsKept(value);
  }

  /** Reading one more line. */
  lemma ScanSnoc(ls: seq<Line>, l: Line)
    ensures ScanLines(ls + [l]) == match ScanLines(ls) case Failure(e) => Failure(e) case Success(f) => Step(f, l)
  {
    assert (ls + [l])[..|ls|] == ls;
  }

  /** The five assignments, in dictionary order, fill the dictionary. */
  lemma ScanOfFiveAssignments(host: string, portText: string, port: int, user: string, password: string, database: string)
    requires ParseInt(portText) == Some(port)
    ensures ScanLines([Assignment("host", host), Assignment("port", portText), Assignment("user", user),
      Assignment("password", password), Assignment("database", database)])
      == Success(Fields(Some(host), port, Some(user), Some(password), Some(database)))
  {
    var a1, a2, a3, a4, a5 := Assignment("host", host), Assignment("port", portText), Assignment("user", user),
      Assignment("password", password), Assignment("database", database);
    ScanSnoc([], a1);
    ScanSnoc([a1], a2);
    ScanSnoc([a1, a2], a3);
    ScanSnoc([a1, a2, a3], a4);
    ScanSnoc([a1, a2, a3, a4], a5);
    assert [] + [a1] == [a1] && [a1] + [a2] == [a1, a2] && [a1, a2] + [a3] == [a1, a2, a3];
    assert [a1, a2, a3] + [a4] == [a1, a2, a3, a4] && [a1, a2, a3, a4] + [a5] == [a1, a2, a3, a4, a5];
  }

  /** Lines each classified as the matching entry of `cs`. */
  lemma ClassifiedAs(lines: seq<string>, cs: seq<Line>)
    requires |lines| == |cs| && forall k :: 0 <= k < |lines| ==> Classify(lines[k]) == cs[k]
    ensures Classified(lines) == cs
  {
  }

  /** The keys in the order of the dictionary. */
  const Keys := ["host", "port", "user", "password", "database"]

  /** The values of the settings in the order of `Keys`, the port as text. */
  function Values(s: Settings): seq<string> {
    [s.host, IntText(s.port), s.user, s.password, s.database]
  }

  /** The assignments the written lines stand for. */
  function Assignments(s: Settings): seq<Line> {
    [ Assignment("host", s.host), Assignment("port", IntText(s.port)), Assignment("user", s.user),
      Assignment("password", s.password), Assignment("database", s.database) ]
  }

  /** Each written line reads back as its assignment. */
  lemma RenderLineClassified(s: Settings, k: nat)
    requires Plain(s.host) && Plain(s.user) && Plain(s.password) && Plain(s.database) && k < 5
    ensures Classify(Render(s)[k]) == Assignments(s)[k]
  {
    var key, value := Keys[k], Values(s)[k];
    assert Render(s)[k] == SettingLine(key, value) && Assignments(s)[k] == Assignment(key, value);
    LowerWordKeys();
    if k == 1 {
      ParseIntText(s.port);
    }
    SettingLineReads(key, value);
  }

  /** The written lines read back as the five assignments. */
  lemma RenderClassified(s: Settings)
    requires Plain(s.host) && Plain(s.user) && Plain(s.password) && Plain(s.database)
    ensures Classified(Render(s)) == Assignments(s)
  {
    forall k | 0 <= k < 5 ensures Classify(Render(s)[k]) == Assignments(s)[k] {
      RenderLineClassified(s, k);
    }
    ClassifiedAs(Render(s), Assignments(s));
  }

  /** Loading written settings gives them back, when no value has blanks or quotes at its ends. */
  lemma RenderRoundTrip(s: Settings)
    requires Plain(s.host) && Plain(s.user) && Plain(s.password) && Plain(s.database)
    ensures LoadSpec(Render(s)) == Success(s)
  {
    RenderClassified(s);
    ParseIntText(s.port);
    ScanOfFiveAssignments(s.host, IntText(s.port), s.port, s.user, s.password, s.database);
  }
}
