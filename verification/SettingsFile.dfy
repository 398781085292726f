/**
 The settings override file as text: `renderOverride` prints the editable settings, `readConfigFile`
 reads `key = value` lines back, and `applyEditableValues` puts what was read over a configuration.
 Letters are lowered as in ASCII.
 */
module SettingsFile {
  import opened Outcomes
  import opened Text
  import Durations

  /***** Reading lines *****/

  /** Enclosed in one pair of matching quotes. */
  predicate Quoted(v: string) {
    |v| >= 2 && v[0] == v[|v| - 1] && (v[0] == '"' || v[0] == '\'')
  }

  function Unquote(v: string): string {
    if Quoted(v) then v[1..|v| - 1] else v
  }

  function ReadValue(v: string): string {
    Unquote(TrimSpace(v))
  }

  function LowerChar(c: char): char {
    if 'A' <= c <= 'Z' then (c as int + 32) as char else c
  }

  function Lower(s: string): (r: string)
    ensures |r| == |s| && forall i | 0 <= i < |s| :: r[i] == LowerChar(s[i])
  {
    seq(|s|, i requires 0 <= i < |s| => LowerChar(s[i]))
  }

  datatype Line = Skip | Bad | Setting(key: string, value: string)

  function ParseLine(raw: string): Line {
    var line := TrimSpace(raw);
    if line == "" || line[0] == '#' || line[0] == ';' then Skip
    else
      match IndexOf(line, '=')
      case None => Bad
      case Some(i) =>
        if TrimSpace(line[..i]) == "" then Bad
        else Setting(Lower(TrimSpace(line[..i])), ReadValue(line[i + 1..]))
  }

  /** The values of a file, or the number of its first bad line; a later line replaces an earlier one. */
  function Read(lines: seq<string>): Result<map<string, string>, nat> {
    if lines == [] then Ok(map[])
    else
      var n := |lines| - 1;
      match Read(lines[..n])
      case Err(e) => Err(e)
      case Ok(m) =>
        match ParseLine(lines[n])
        case Skip => Ok(m)
        case Bad => Err(n + 1)
        case Setting(key, value) => Ok(m[key := value])
  }

  method ReadConfigFile(content: string) returns (r: Result<map<string, string>, nat>)
    ensures r == Read(Split(content, '\n'))
  {
    var values: map<string, string> := map[];
    var lines := Split(content, '\n');
    var lineNumber := 1;
    while lineNumber <= |lines|
      invariant 1 <= lineNumber <= |lines| + 1
      invariant Read(lines[..lineNumber - 1]) == Ok(values)
    {
      assert lines[..lineNumber][..lineNumber - 1] == lines[..lineNumber - 1];
      match ParseLine(lines[lineNumber - 1]) {
        case Skip =>
        case Bad =>
          BadStays(lines, lineNumber);
          return Err(lineNumber);
        case Setting(key, value) => values := values[key := value];
      }
      lineNumber := lineNumber + 1;
    }
    assert lines[..|lines|] == lines;
    return Ok(values);
  }

  lemma {:induction false} BadStays(lines: seq<string>, n: nat)
    requires n <= |lines| && Read(lines[..n]).Err?
    ensures Read(lines) == Read(lines[..n])
    decreases |lines|
  {
    if n == |lines| {
      assert lines[..n] == lines;
    } else {
      assert lines[..|lines| - 1][..n] == lines[..n];
      BadStays(lines[..|lines| - 1], n);
    }
  }

  /***** Keys *****/

  datatype Key =
    | MfaEnabled | MfaMethods | EmailCodeTTL | AuthSessionTTL | AuthSessionIdleTTL
    | SmtpHost | SmtpPort | SmtpUsername | SmtpPassword | SmtpFrom
    | TlsCertFile | TlsKeyFile | AccessTlsCertFile | AccessTlsKeyFile
    | AccessHTTPPort | AccessHTTPSPort | ListenAddr | HttpsListenAddr
    | PanelDomain | AccessDomain | AccessScheme | SmtpPasswordFile

  function Name(k: Key): string {
    match k
    case MfaEnabled => "mfa_enabled"
    case MfaMethods => "mfa_methods"
    case EmailCodeTTL => "mfa_email_code_ttl"
    case AuthSessionTTL => "auth_session_ttl"
    case AuthSessionIdleTTL => "auth_session_idle_ttl"
    case SmtpHost => "smtp_host"
    case SmtpPort => "smtp_port"
    case SmtpUsername => "smtp_username"
    case SmtpPassword => "smtp_password"
    case SmtpFrom => "smtp_from"
    case TlsCertFile => "tls_cert_file"
    case TlsKeyFile => "tls_key_file"
    case AccessTlsCertFile => "access_tls_cert_file"
    case AccessTlsKeyFile => "access_tls_key_file"
    case AccessHTTPPort => "access_http_port"
    case AccessHTTPSPort => "access_https_port"
    case ListenAddr => "listen_addr"
    case HttpsListenAddr => "https_listen_addr"
    case PanelDomain => "panel_domain"
    case AccessDomain => "access_domain"
    case AccessScheme => "access_scheme"
    case SmtpPasswordFile => "smtp_password_file"
  }

  /** The key of a name, told by its length and a few of its letters. */
  function KeyOf(s: string): Key
    requires |s| > 8
  {
    if |s| == 9 then (if s[5] == 'h' then SmtpHost else if s[5] == 'p' then SmtpPort else SmtpFrom)
    else if |s| == 11 then (if s[0] == 'l' then ListenAddr else if s[5] == 'n' then MfaEnabled else MfaMethods)
    else if |s| == 12 then (if s[0] == 't' then TlsKeyFile else PanelDomain)
    else if |s| == 13 then
      (if s[0] == 't' then TlsCertFile
       else if s[0] == 'a' then (if s[7] == 'd' then AccessDomain else AccessScheme)
       else if s[5] == 'u' then SmtpUsername else SmtpPassword)
    else if |s| == 16 then (if s[1] == 'u' then AuthSessionTTL else AccessHTTPPort)
    else if |s| == 17 then (if s[0] == 'a' then AccessHTTPSPort else HttpsListenAddr)
    else if |s| == 18 then (if s[0] == 'm' then EmailCodeTTL else SmtpPasswordFile)
    else if |s| == 19 then AccessTlsKeyFile
    else if |s| == 20 then AccessTlsCertFile
    else AuthSessionIdleTTL
  }

  lemma KeyOfName(k: Key)
    ensures |Name(k)| > 8 && KeyOf(Name(k)) == k
  {
  }

  predicate IsKeyChar(c: char) {
    'a' <= c <= 'z' || c == '_'
  }

  predicate IsWord(s: string) {
    s != "" && forall i | 0 <= i < |s| :: IsKeyChar(s[i])
  }

  lemma ShortNameIsWord(k: Key)
    requires k.SmtpHost? || k.SmtpPort? || k.SmtpFrom? || k.MfaEnabled? || k.MfaMethods? || k.ListenAddr? ||
             k.TlsKeyFile? ||
             k.PanelDomain?
    ensures IsWord(Name(k))
  {
  }

  lemma MiddleNameIsWord(k: Key)
    requires k.SmtpUsername? || k.SmtpPassword? || k.TlsCertFile? || k.AccessDomain? || k.AccessScheme? ||
             k.AuthSessionTTL?
    ensures IsWord(Name(k))
  {
  }

  lemma LongNameIsWord(k: Key)
    requires k.AccessHTTPPort? || k.AccessHTTPSPort? || k.HttpsListenAddr? || k.EmailCodeTTL?
    ensures IsWord(Name(k))
  {
  }

  lemma LongestNameIsWord(k: Key)
    requires k.SmtpPasswordFile? || k.AccessTlsKeyFile? || k.AccessTlsCertFile? || k.AuthSessionIdleTTL?
    ensures IsWord(Name(k))
  {
  }

  lemma NameIsWord(k: Key)
    ensures IsWord(Name(k))
  {
    hide Name, IsWord;
    match k
    case SmtpHost | SmtpPort | SmtpFrom | MfaEnabled |
         MfaMethods | ListenAddr | TlsKeyFile | PanelDomain => ShortNameIsWord(k);
    case SmtpUsername | SmtpPassword | TlsCertFile |
         AccessDomain | AccessScheme | AuthSessionTTL => MiddleNameIsWord(k);
    case AccessHTTPPort | AccessHTTPSPort | HttpsListenAddr | EmailCodeTTL => LongNameIsWord(k);
    case _ => LongestNameIsWord(k);
  }

  lemma WordIsPlain(s: string)
    requires IsWord(s)
    ensures Trimmed(s) && Lower(s) == s && '=' !in s && '\n' !in s && s[0] != '#' && s[0] != ';' && !Quoted(s)
  {
    assert forall i | 0 <= i < |s| :: LowerChar(s[i]) == s[i];
  }

  /***** One printed line *****/

  function Print(k: Key, v: string): string {
    Name(k) + " = " + v
  }

  lemma {:induction false} TrimRightAppend(a: string, b: string)
    requires a != "" && !IsSpace(a[|a| - 1])
    ensures TrimRight(a + b) == a + TrimRight(b)
  {
    if b == "" {
      assert a + b == a;
    } else if IsSpace(b[|b| - 1]) {
      assert (a + b)[..|a + b| - 1] == a + b[..|b| - 1];
      TrimRightAppend(a, b[..|b| - 1]);
    }
  }

  lemma {:induction false} TrimsCommute(s: string)
    ensures TrimLeft(TrimRight(s)) == TrimRight(TrimLeft(s))
  {
    if s != "" && IsSpace(s[0]) {
      TrimsCommute(s[1..]);
      TrimRightOfSpace(s);
    } else if s != "" {
      assert s == [s[0]] + s[1..];
      TrimRightAppend([s[0]], s[1..]);
    }
  }

  /** A leading space only survives on the right side of nothing. */
  lemma {:induction false} TrimRightOfSpace(s: string)
    requires s != "" && IsSpace(s[0])
    ensures TrimLeft(TrimRight(s)) == TrimLeft(TrimRight(s[1..]))
  {
    if IsSpace(s[|s| - 1]) {
      if |s| > 1 {
        assert s[..|s| - 1][1..] == s[1..][..|s| - 2];
        TrimRightOfSpace(s[..|s| - 1]);
      } else {
        assert s[..0] == "" && s[1..] == "";
      }
    }
  }

  lemma TrimTwice(s: string)
    ensures TrimSpace(TrimRight(s)) == TrimSpace(s) && TrimSpace(" " + s) == TrimSpace(s)
  {
    TrimsCommute(s);
    TrimRightEnds(s);
    TrimRightOfTrimmed(TrimRight(s));
    TrimsCommute(TrimRight(s));
    assert (" " + s)[1..] == s;
  }

  lemma TrimRightOfTrimmed(s: string)
    requires s == "" || !IsSpace(s[|s| - 1])
    ensures TrimRight(s) == s
  {
  }

  /** A printed line is read as its key and the value, trimmed and stripped of one pair of quotes. */
  lemma PrintedLine(k: Key, v: string)
    ensures ParseLine(Print(k, v)) == Setting(Name(k), ReadValue(v))
  {
    hide IsSpace, Name;
    var name, line := Name(k), Print(k, v);
    var head, tail := name + " =", " " + v;
    NameIsWord(k);
    WordIsPlain(name);
    assert line == head + tail;
    assert TrimLeft(line) == line;
    NotSpace();
    TrimRightAppend(head, tail);
    var trimmed := head + TrimRight(tail);
    assert TrimSpace(line) == trimmed;
    FirstEquals(name, TrimRight(tail), trimmed);
    TrimmedIsKept(name);
    TrimOneSpace(name);
    TrimTwice(tail);
    TrimTwice(v);
  }

  lemma NotSpace()
    ensures !IsSpace('=') && IsSpace(' ')
  {
  }

  lemma TrimOneSpace(name: string)
    requires name != "" && Trimmed(name)
    ensures TrimSpace(name + " ") == name
  {
    NotSpace();
    assert TrimLeft(name + " ") == name + " ";
    assert (name + " ")[..|name|] == name;
    assert TrimRight(name) == name;
  }

  lemma FirstEquals(name: string, rest: string, line: string)
    requires '=' !in name && line == name + " =" + rest
    ensures IndexOf(line, '=') == Some(|name| + 1)
    ensures line[..|name| + 1] == name + " " && line[|name| + 2..] == rest
  {
    var k := |name| + 1;
    assert line[k] == '=' && line[..k] == name + " ";
    FoundFirst(line, '=', k);
  }

  lemma {:induction false} FoundFirst(s: string, c: char, k: nat)
    requires k < |s| && s[k] == c && c !in s[..k]
    ensures IndexOf(s, c) == Some(k)
  {
    if k > 0 {
      assert s[0] in s[..k];
      assert s[..k] == [s[0]] + s[1..][..k - 1];
      FoundFirst(s[1..], c, k - 1);
    }
  }

  /***** A printed file *****/

  const COMMENT: string := "# 由 设备管理平台 系统设置生成。可由部署配置或环境变量覆盖。"

  /** `values` gives the text of each key; the keys in `keys` are printed, in that order. */
  function Lines(keys: seq<Key>, values: Key -> string): (lines: seq<string>)
    ensures |lines| == |keys| + 1
  {
    if keys == [] then [COMMENT]
    else Lines(keys[..|keys| - 1], values) + [Print(keys[|keys| - 1], values(keys[|keys| - 1]))]
  }

  /** What the lines say about one key. */
  predicate SaysOf(m: map<string, string>, keys: seq<Key>, values: Key -> string, k: Key) {
    (Name(k) in m <==> k in keys) && (k in keys ==> m[Name(k)] == ReadValue(values(k)))
  }

  lemma {:induction false} TrimRightKeepsFirst(s: string)
    requires s != "" && !IsSpace(s[0])
    ensures TrimRight(s) != "" && TrimRight(s)[0] == s[0]
  {
    if IsSpace(s[|s| - 1]) {
      TrimRightKeepsFirst(s[..|s| - 1]);
    }
  }

  lemma CommentIsSkipped()
    ensures ParseLine(COMMENT) == Skip && '\n' !in COMMENT
  {
    CommentStarts();
    CommentIsSkippedBy(COMMENT);
  }

  lemma CommentStarts()
    ensures '\n' !in COMMENT && |COMMENT| > 0 && COMMENT[0] == '#'
  {
  }

  lemma CommentIsSkippedBy(s: string)
    requires s != "" && s[0] == '#'
    ensures ParseLine(s) == Skip
  {
    assert !IsSpace('#');
    TrimRightKeepsFirst(s);
  }

  /** Every printed key is read back, and no other key of ours. */
  lemma {:induction false} ReadOfLines(keys: seq<Key>, values: Key -> string) returns (m: map<string, string>)
    ensures Read(Lines(keys, values)) == Ok(m)
    ensures forall k :: SaysOf(m, keys, values, k)
  {
    hide Name, ParseLine, Print, ReadValue;
    var lines := Lines(keys, values);
    var n := |lines| - 1;
    if keys == [] {
      CommentIsSkipped();
      assert lines[..0] == [];
      m := map[];
    } else {
      var front, last := keys[..|keys| - 1], keys[|keys| - 1];
      var m0 := ReadOfLines(front, values);
      assert lines[..n] == Lines(front, values);
      PrintedLine(last, values(last));
      m := m0[Name(last) := ReadValue(values(last))];
      assert keys == front + [last];
      forall k ensures SaysOf(m, keys, values, k) {
        assert SaysOf(m0, front, values, k);
        KeyOfName(k);
        KeyOfName(last);
      }
    }
  }

  /** The file ends with a line break, so that its last line, as split, is empty. */
  lemma {:induction false} SplitOfFile(lines: seq<string>)
    requires |lines| > 0 && forall i | 0 <= i < |lines| :: '\n' !in lines[i]
    ensures Split(Join(lines, '\n') + "\n", '\n') == lines + [""]
  {
    var all := lines + [""];
    JoinEnds(lines);
    SplitOfJoin(all, '\n');
  }

  lemma {:induction false} JoinEnds(lines: seq<string>)
    requires |lines| > 0
    ensures Join(lines + [""], '\n') == Join(lines, '\n') + "\n"
  {
    if |lines| == 1 {
      assert (lines + [""])[1..] == [""];
      assert Join([""], '\n') == "";
    } else {
      assert (lines + [""])[1..] == lines[1..] + [""];
      JoinEnds(lines[1..]);
    }
  }

  lemma EmptyLineIsSkipped(lines: seq<string>)
    requires Read(lines).Ok?
    ensures Read(lines + [""]) == Read(lines)
  {
    assert (lines + [""])[..|lines|] == lines;
    assert ParseLine("") == Skip;
  }

  /** The value is read back as it is exactly if it is trimmed and not wrapped in quotes. */
  lemma ReadsBackExactlyWhen(v: string)
    ensures ReadValue(v) == v <==> Trimmed(v) && !Quoted(v)
  {
    TrimSpaceTrims(v);
    if Trimmed(v) {
      TrimmedIsKept(v);
    }
  }

  /***** Numbers, truth values and lists in the file *****/

  function Itoa(n: int): string {
    if n < 0 then "-" + Decimal(-n) else Decimal(n)
  }

  function Atoi(s: string): Option<int> {
    var signed := s != "" && (s[0] == '-' || s[0] == '+');
    var digits := if signed then s[1..] else s;
    if digits == "" || !AllDigits(digits) then None
    else if signed && s[0] == '-' then Some(-(Value(digits) as int)) else Some(Value(digits))
  }

  /** `parseOptionalPort`, with a failure read as zero. */
  function OptionalPort(s: string): int {
    var text := TrimSpace(s);
    if text == "" || text == "0" || Atoi(text).None? then 0
    else if 1 <= Atoi(text).value <= 65535 then Atoi(text).value else 0
  }

  function FormatBool(b: bool): string {
    if b then "true" else "false"
  }

  function ParseBool(s: string): bool {
    s in ["1", "t", "T", "TRUE", "true", "True"]
  }

  predicate IsSeparator(c: char) {
    c == ',' || c == ';' || c == ' ' || c == '\n' || c == '\t'
  }

  function WordAt(s: string): (n: nat)
    ensures n <= |s|
  {
    if s == "" || IsSeparator(s[0]) then 0 else 1 + WordAt(s[1..])
  }

  function Fields(s: string): seq<string>
    decreases |s|
  {
    if s == "" then []
    else if IsSeparator(s[0]) then Fields(s[1..])
    else [s[..WordAt(s)]] + Fields(s[WordAt(s)..])
  }

  function SplitList(value: string): seq<string> {
    Fields(Lower(value))
  }

  lemma AtoiOfItoa(n: int)
    ensures Atoi(Itoa(n)) == Some(n)
    ensures Trimmed(Itoa(n)) && !Quoted(Itoa(n)) && Itoa(n) != "" && '\n' !in Itoa(n)
  {
    hide Decimal, IsSpace;
    var d := Decimal(if n < 0 then -n else n);
    ValueOfDecimal(if n < 0 then -n else n);
    assert ("-" + d)[1..] == d;
    NumbersAreNoSpace();
    assert Itoa(n)[|Itoa(n)| - 1] == d[|d| - 1];
  }

  lemma NumbersAreNoSpace()
    ensures !IsSpace('-') && forall c | IsDigit(c) :: !IsSpace(c)
  {
  }

  /** A port survives the file exactly if it is in range; anything else comes back as zero. */
  lemma PortReadsBackExactlyWhen(n: int)
    ensures OptionalPort(ReadValue(Itoa(n))) == if 0 <= n <= 65535 then n else 0
  {
    AtoiOfItoa(n);
    ReadsBackExactlyWhen(Itoa(n));
    TrimmedIsKept(Itoa(n));
    ZeroText();
  }

  lemma ZeroText()
    ensures Atoi("0") == Some(0)
  {
    assert Itoa(0) == "0";
    AtoiOfItoa(0);
  }

  predicate AllWords(words: seq<string>) {
    forall i | 0 <= i < |words| :: IsWord(words[i])
  }

  lemma {:induction false} WordEnds(word: string, rest: string)
    requires (forall i | 0 <= i < |word| :: IsKeyChar(word[i])) && (rest == "" || IsSeparator(rest[0]))
    ensures WordAt(word + rest) == |word|
  {
    if word == "" {
      assert word + rest == rest;
    } else {
      assert (word + rest)[1..] == word[1..] + rest;
      WordEnds(word[1..], rest);
    }
  }

  lemma {:induction false} FieldsOfJoin(words: seq<string>)
    requires AllWords(words)
    ensures Fields(Join(words, ',')) == words
  {
    if |words| == 1 {
      WordEnds(words[0], "");
      assert words[0] + "" == words[0];
      assert !IsSeparator(words[0][0]);
      assert Fields("") == [];
    } else if |words| > 1 {
      var rest := Join(words[1..], ',');
      var s := Join(words, ',');
      assert s == words[0] + ("," + rest);
      WordEnds(words[0], "," + rest);
      assert s[..|words[0]|] == words[0] && s[|words[0]|..] == "," + rest;
      assert ("," + rest)[1..] == rest;
      FieldsOfJoin(words[1..]);
    }
  }

  lemma {:induction false} JoinOfWords(words: seq<string>)
    requires AllWords(words)
    ensures forall i | 0 <= i < |Join(words, ',')| :: IsKeyChar(Join(words, ',')[i]) || Join(words, ',')[i] == ','
    ensures words != [] ==> var s := Join(words, ','); s != "" && IsKeyChar(s[0]) && IsKeyChar(s[|s| - 1])
  {
    if |words| > 0 {
      JoinOfWords(words[1..]);
    }
  }

  /** A list of words survives the file: same words, same order. */
  lemma MethodsReadBack(words: seq<string>)
    requires AllWords(words)
    ensures SplitList(ReadValue(Join(words, ','))) == words && '\n' !in Join(words, ',')
  {
    var s := Join(words, ',');
    JoinOfWords(words);
    assert !IsSpace('_') && forall c | IsKeyChar(c) :: !IsSpace(c) && c != '"' && c != '\'';
    ReadsBackExactlyWhen(s);
    assert Lower(s) == s;
    FieldsOfJoin(words);
  }

  lemma BoolReadsBack(b: bool)
    ensures ParseBool(ReadValue(FormatBool(b))) == b && '\n' !in FormatBool(b)
  {
    assert FormatBool(b) == if b then "true" else "false";
    ReadsBackExactlyWhen(FormatBool(b));
    NoSpaceInWord(FormatBool(b));
    if !b {
      assert "false"[0] == 'f' && |"false"| == 5 && "False"[0] == 'F';
    }
  }

  lemma NoSpaceInWord(s: string)
    requires s == "true" || s == "false"
    ensures Trimmed(s) && !Quoted(s)
  {
  }

  lemma DurationReadsBack(d: int)
    ensures Durations.Parse(ReadValue(Durations.Show(d))) == Some(d) && '\n' !in Durations.Show(d)
  {
    hide Durations.Show, Durations.Parse;
    Durations.ShowIsPlain(d);
    Durations.ParseOfShow(d);
    ReadsBackExactlyWhen(Durations.Show(d));
  }
}
