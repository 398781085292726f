/**
 The settings that an administrator edits in the browser: what is printed into the override file and
 what comes back from it, how environment variables stay in command, and how `Save` and `Current` of
 the settings manager fit together.  The running configuration holds here what the page can edit.
 */
module Settings {
  import opened ListFacts
  import opened Outcomes
  import opened Text
  import opened SettingsFile
  import Durations

  datatype Config = Config(
    mfaEnabled: bool, mfaMethods: seq<string>, emailCodeTTL: int, authSessionTTL: int, authSessionIdleTTL: int,
    smtpHost: string, smtpPort: int, smtpUsername: string, smtpPassword: string, smtpFrom: string, smtpTLSMode: string,
    tlsCertFile: string, tlsKeyFile: string, accessTlsCertFile: string, accessTlsKeyFile: string,
    accessHTTPPort: int, accessHTTPSPort: int, listenAddress: string, httpsListenAddress: string,
    panelDomain: string, accessDomain: string, accessScheme: string)

  function TLSModeForPort(port: int): string {
    if port == 465 then "tls" else "starttls"
  }

  /***** Printing *****/

  /** The text printed for each key; `passwordFile` is printed if it is not empty. */
  function ValueText(c: Config, passwordFile: string, k: Key): string {
    match k
    case MfaEnabled => FormatBool(c.mfaEnabled)
    case MfaMethods => Join(c.mfaMethods, ',')
    case EmailCodeTTL => Durations.Show(c.emailCodeTTL)
    case AuthSessionTTL => Durations.Show(c.authSessionTTL)
    case AuthSessionIdleTTL => Durations.Show(c.authSessionIdleTTL)
    case SmtpHost => c.smtpHost
    case SmtpPort => Itoa(c.smtpPort)
    case SmtpUsername => c.smtpUsername
    case SmtpPassword => ""
    case SmtpFrom => c.smtpFrom
    case TlsCertFile => c.tlsCertFile
    case TlsKeyFile => c.tlsKeyFile
    case AccessTlsCertFile => c.accessTlsCertFile
    case AccessTlsKeyFile => c.accessTlsKeyFile
    case AccessHTTPPort => Itoa(c.accessHTTPPort)
    case AccessHTTPSPort => Itoa(c.accessHTTPSPort)
    case ListenAddr => c.listenAddress
    case HttpsListenAddr => c.httpsListenAddress
    case PanelDomain => c.panelDomain
    case AccessDomain => c.accessDomain
    case AccessScheme => c.accessScheme
    case SmtpPasswordFile => passwordFile
  }

  const KEYS: seq<Key> := [
    MfaEnabled, MfaMethods, EmailCodeTTL, AuthSessionTTL, AuthSessionIdleTTL, SmtpHost, SmtpPort, SmtpUsername,
    SmtpPassword, SmtpFrom, TlsCertFile, TlsKeyFile, AccessTlsCertFile, AccessTlsKeyFile, AccessHTTPPort,
    AccessHTTPSPort, ListenAddr, HttpsListenAddr, PanelDomain, AccessDomain, AccessScheme]

  function KeysWith(passwordFile: string): seq<Key> {
    if passwordFile == "" then KEYS else KEYS + [SmtpPasswordFile]
  }

  function Texts(c: Config, passwordFile: string): Key -> string {
    k => ValueText(c, passwordFile, k)
  }

  function RenderOverride(c: Config, passwordFile: string): string {
    Join(Lines(KeysWith(passwordFile), Texts(c, passwordFile)), '\n') + "\n"
  }

  /***** Reading *****/

  function TextOr(values: map<string, string>, k: Key, prior: string): string {
    if Name(k) in values then values[Name(k)] else prior
  }

  function DurationOr(values: map<string, string>, k: Key, prior: int): int {
    if Name(k) in values && Durations.Parse(values[Name(k)]).Some?
    then Durations.Parse(values[Name(k)]).value else prior
  }

  function PortOr(values: map<string, string>, k: Key, prior: int): int {
    if Name(k) in values then OptionalPort(values[Name(k)]) else prior
  }

  /** `files` are the files that can be read. */
  function PasswordOr(values: map<string, string>, files: map<string, string>, prior: string): string {
    if Name(SmtpPasswordFile) in values && TrimSpace(values[Name(SmtpPasswordFile)]) in files &&
       TrimSpace(values[Name(SmtpPasswordFile)]) != ""
    then TrimSpace(files[TrimSpace(values[Name(SmtpPasswordFile)])]) else prior
  }

  function ApplyEditableValues(c: Config, v: map<string, string>, files: map<string, string>): Config {
    var port := if Name(SmtpPort) in v && Atoi(v[Name(SmtpPort)]).Some? then Atoi(v[Name(SmtpPort)]).value
                else c.smtpPort;
    Config(
      if Name(MfaEnabled) in v then ParseBool(v[Name(MfaEnabled)]) else c.mfaEnabled,
      if Name(MfaMethods) in v then SplitList(v[Name(MfaMethods)]) else c.mfaMethods,
      DurationOr(v, EmailCodeTTL, c.emailCodeTTL), DurationOr(v, AuthSessionTTL, c.authSessionTTL),
      DurationOr(v, AuthSessionIdleTTL, c.authSessionIdleTTL),
      TextOr(v, SmtpHost, c.smtpHost), port, TextOr(v, SmtpUsername, c.smtpUsername),
      PasswordOr(v, files, c.smtpPassword), TextOr(v, SmtpFrom, c.smtpFrom), TLSModeForPort(port),
      TextOr(v, TlsCertFile, c.tlsCertFile), TextOr(v, TlsKeyFile, c.tlsKeyFile),
      TextOr(v, AccessTlsCertFile, c.accessTlsCertFile), TextOr(v, AccessTlsKeyFile, c.accessTlsKeyFile),
      PortOr(v, AccessHTTPPort, c.accessHTTPPort), PortOr(v, AccessHTTPSPort, c.accessHTTPSPort),
      TextOr(v, ListenAddr, c.listenAddress), TextOr(v, HttpsListenAddr, c.httpsListenAddress),
      TextOr(v, PanelDomain, c.panelDomain), TextOr(v, AccessDomain, c.accessDomain),
      TextOr(v, AccessScheme, c.accessScheme))
  }

  /***** The round trip *****/

  predicate OneLine(v: string) {
    '\n' !in v
  }

  predicate TypedIsOneLine(c: Config) {
    OneLine(c.smtpHost) && OneLine(c.smtpUsername) && OneLine(c.smtpFrom) &&
    OneLine(c.tlsCertFile) && OneLine(c.tlsKeyFile) && OneLine(c.accessTlsCertFile) && OneLine(c.accessTlsKeyFile) &&
    OneLine(c.panelDomain) && OneLine(c.accessDomain)
  }

  /** No text in it has a line break, and the methods are words. */
  predicate Printable(c: Config, passwordFile: string) {
    AllWords(c.mfaMethods) && TypedIsOneLine(c) && OneLine(c.listenAddress) && OneLine(c.httpsListenAddress) &&
    OneLine(c.accessScheme) && OneLine(passwordFile)
  }

  predicate Bare(v: string) {
    Trimmed(v) && !Quoted(v)
  }

  predicate IsPort(n: int) {
    0 <= n <= 65535
  }

  /** Each text is trimmed and not wrapped in quotes, the access ports are in range, the mode fits the port. */
  predicate Faithful(c: Config) {
    Bare(c.smtpHost) && Bare(c.smtpUsername) && Bare(c.smtpFrom) && Bare(c.tlsCertFile) && Bare(c.tlsKeyFile) &&
    Bare(c.accessTlsCertFile) && Bare(c.accessTlsKeyFile) && Bare(c.listenAddress) && Bare(c.httpsListenAddress) &&
    Bare(c.panelDomain) && Bare(c.accessDomain) && Bare(c.accessScheme) &&
    IsPort(c.accessHTTPPort) && IsPort(c.accessHTTPSPort) && c.smtpTLSMode == TLSModeForPort(c.smtpPort)
  }

  /** The same in everything but the password. */
  predicate SameButPassword(a: Config, b: Config) {
    a.(smtpPassword := b.smtpPassword) == b
  }

  lemma ValueIsOneLine(c: Config, passwordFile: string, k: Key)
    requires Printable(c, passwordFile)
    ensures OneLine(Print(k, ValueText(c, passwordFile, k)))
  {
    hide Name, Durations.Show, Itoa, FormatBool, Join;
    NameIsWord(k);
    WordIsPlain(Name(k));
    BoolReadsBack(c.mfaEnabled);
    MethodsReadBack(c.mfaMethods);
    DurationReadsBack(c.emailCodeTTL);
    DurationReadsBack(c.authSessionTTL);
    DurationReadsBack(c.authSessionIdleTTL);
    AtoiOfItoa(c.smtpPort);
    AtoiOfItoa(c.accessHTTPPort);
    AtoiOfItoa(c.accessHTTPSPort);
  }

  predicate AllOneLine(lines: seq<string>) {
    forall i | 0 <= i < |lines| :: '\n' !in lines[i]
  }

  lemma {:induction false} LinesAreOneLine(c: Config, passwordFile: string, keys: seq<Key>)
    requires Printable(c, passwordFile)
    ensures AllOneLine(Lines(keys, Texts(c, passwordFile)))
  {
    hide Printable, ValueText, Print;
    if keys == [] {
      CommentIsSkipped();
    } else {
      LinesAreOneLine(c, passwordFile, keys[..|keys| - 1]);
      var last := keys[|keys| - 1];
      ValueIsOneLine(c, passwordFile, last);
      assert Texts(c, passwordFile)(last) == ValueText(c, passwordFile, last);
    }
  }

  predicate Tells(m: map<string, string>, c: Config, passwordFile: string, k: Key) {
    k != SmtpPasswordFile ==> Name(k) in m && m[Name(k)] == ReadValue(ValueText(c, passwordFile, k))
  }

  /** The printed file is well formed and gives every key its value, as values are read. */
  lemma ReadOfRendered(c: Config, passwordFile: string) returns (m: map<string, string>)
    requires Printable(c, passwordFile)
    ensures Read(Split(RenderOverride(c, passwordFile), '\n')) == Ok(m)
    ensures forall k :: Tells(m, c, passwordFile, k)
    ensures Name(SmtpPasswordFile) in m <==> passwordFile != ""
    ensures passwordFile != "" ==> m[Name(SmtpPasswordFile)] == ReadValue(passwordFile)
  {
    hide Printable, ValueText, Name, ReadValue, Read, Split, Join;
    var keys, values := KeysWith(passwordFile), Texts(c, passwordFile);
    LinesAreOneLine(c, passwordFile, keys);
    SplitOfFile(Lines(keys, values));
    m := ReadOfLines(keys, values);
    EmptyLineIsSkipped(Lines(keys, values));
    forall k ensures Tells(m, c, passwordFile, k) {
      assert SaysOf(m, keys, values, k);
      KeyIsPrinted(passwordFile, k);
    }
    assert SaysOf(m, keys, values, SmtpPasswordFile);
    PasswordFileIsPrinted(c, passwordFile);
  }

  lemma PasswordFileIsPrinted(c: Config, passwordFile: string)
    ensures SmtpPasswordFile in KeysWith(passwordFile) <==> passwordFile != ""
    ensures Texts(c, passwordFile)(SmtpPasswordFile) == passwordFile
  {
    assert SmtpPasswordFile !in KEYS;
    assert passwordFile != "" ==> KeysWith(passwordFile)[|KEYS|] == SmtpPasswordFile;
  }

  lemma KeyIsPrinted(passwordFile: string, k: Key)
    ensures k != SmtpPasswordFile ==> k in KeysWith(passwordFile)
  {
    var i := match k
      case MfaEnabled => 0 case MfaMethods => 1 case EmailCodeTTL => 2 case AuthSessionTTL => 3
      case AuthSessionIdleTTL => 4 case SmtpHost => 5 case SmtpPort => 6 case SmtpUsername => 7
      case SmtpPassword => 8 case SmtpFrom => 9 case TlsCertFile => 10 case TlsKeyFile => 11
      case AccessTlsCertFile => 12 case AccessTlsKeyFile => 13 case AccessHTTPPort => 14
      case AccessHTTPSPort => 15 case ListenAddr => 16 case HttpsListenAddr => 17 case PanelDomain => 18
      case AccessDomain => 19 case AccessScheme => 20 case SmtpPasswordFile => 0;
    assert KeysWith(passwordFile)[i] == KEYS[i];
  }

  lemma TextTold(m: map<string, string>, c: Config, passwordFile: string, k: Key, v: string, prior: string)
    requires Tells(m, c, passwordFile, k) && k != SmtpPasswordFile && ValueText(c, passwordFile, k) == v
    ensures TextOr(m, k, prior) == v <==> Bare(v)
  {
    hide Name, ValueText, TrimSpace;
    ReadsBackExactlyWhen(v);
  }

  lemma DurationTold(m: map<string, string>, c: Config, passwordFile: string, k: Key, d: int, prior: int)
    requires Tells(m, c, passwordFile, k) && k != SmtpPasswordFile && ValueText(c, passwordFile, k) == Durations.Show(d)
    ensures DurationOr(m, k, prior) == d
  {
    hide Name, ValueText, ReadValue, Durations.Show, Durations.Parse;
    DurationReadsBack(d);
  }

  lemma PortTold(m: map<string, string>, c: Config, passwordFile: string, k: Key, n: int, prior: int)
    requires Tells(m, c, passwordFile, k) && k != SmtpPasswordFile && ValueText(c, passwordFile, k) == Itoa(n)
    ensures PortOr(m, k, prior) == n <==> IsPort(n)
  {
    hide Name, ValueText, ReadValue, Itoa, OptionalPort;
    PortReadsBackExactlyWhen(n);
  }

  lemma SwitchTold(m: map<string, string>, c: Config, passwordFile: string)
    requires AllWords(c.mfaMethods) && Tells(m, c, passwordFile, MfaEnabled) && Tells(m, c, passwordFile, MfaMethods)
    ensures Name(MfaEnabled) in m && ParseBool(m[Name(MfaEnabled)]) == c.mfaEnabled
    ensures Name(MfaMethods) in m && SplitList(m[Name(MfaMethods)]) == c.mfaMethods
  {
    hide Name, ReadValue, FormatBool, ParseBool, Join, SplitList;
    BoolReadsBack(c.mfaEnabled);
    MethodsReadBack(c.mfaMethods);
  }

  lemma MailPortTold(m: map<string, string>, c: Config, passwordFile: string)
    requires Tells(m, c, passwordFile, SmtpPort)
    ensures Name(SmtpPort) in m && Atoi(m[Name(SmtpPort)]) == Some(c.smtpPort)
  {
    hide Name, ReadValue, Itoa, Atoi;
    AtoiOfItoa(c.smtpPort);
    ReadsBackExactlyWhen(Itoa(c.smtpPort));
  }

  lemma OthersTold(m: map<string, string>, c: Config, passwordFile: string, base: Config, files: map<string, string>)
    requires AllWords(c.mfaMethods) && forall k :: Tells(m, c, passwordFile, k)
    ensures NumbersTold(ApplyEditableValues(base, m, files), c)
  {
    hide Tells, Name, Itoa, Atoi, ParseBool, Durations.Show, TextOr, PasswordOr, DurationOr, PortOr, SplitList;
    SwitchTold(m, c, passwordFile);
    MailPortTold(m, c, passwordFile);
    DurationTold(m, c, passwordFile, EmailCodeTTL, c.emailCodeTTL, base.emailCodeTTL);
    DurationTold(m, c, passwordFile, AuthSessionTTL, c.authSessionTTL, base.authSessionTTL);
    DurationTold(m, c, passwordFile, AuthSessionIdleTTL, c.authSessionIdleTTL, base.authSessionIdleTTL);
    PortTold(m, c, passwordFile, AccessHTTPPort, c.accessHTTPPort, base.accessHTTPPort);
    PortTold(m, c, passwordFile, AccessHTTPSPort, c.accessHTTPSPort, base.accessHTTPSPort);
  }

  lemma MailTextsTold(m: map<string, string>, c: Config, passwordFile: string, base: Config, files: map<string, string>)
    requires forall k :: Tells(m, c, passwordFile, k)
    ensures var r := ApplyEditableValues(base, m, files);
      (r.smtpHost == c.smtpHost <==> Bare(c.smtpHost)) &&
      (r.smtpUsername == c.smtpUsername <==> Bare(c.smtpUsername)) &&
      (r.smtpFrom == c.smtpFrom <==> Bare(c.smtpFrom))
  {
    hide Tells, Name, ReadValue, Bare, DurationOr, PortOr, PasswordOr, TextOr, Atoi, ParseBool, SplitList;
    TextTold(m, c, passwordFile, SmtpHost, c.smtpHost, base.smtpHost);
    TextTold(m, c, passwordFile, SmtpUsername, c.smtpUsername, base.smtpUsername);
    TextTold(m, c, passwordFile, SmtpFrom, c.smtpFrom, base.smtpFrom);
  }

  lemma FileTextsTold(m: map<string, string>, c: Config, passwordFile: string, base: Config, files: map<string, string>)
    requires forall k :: Tells(m, c, passwordFile, k)
    ensures var r := ApplyEditableValues(base, m, files);
      (r.tlsCertFile == c.tlsCertFile <==> Bare(c.tlsCertFile)) &&
      (r.tlsKeyFile == c.tlsKeyFile <==> Bare(c.tlsKeyFile)) &&
      (r.accessTlsCertFile == c.accessTlsCertFile <==> Bare(c.accessTlsCertFile)) &&
      (r.accessTlsKeyFile == c.accessTlsKeyFile <==> Bare(c.accessTlsKeyFile))
  {
    hide Tells, Name, ReadValue, Bare, DurationOr, PortOr, PasswordOr, TextOr, Atoi, ParseBool, SplitList;
    TextTold(m, c, passwordFile, TlsCertFile, c.tlsCertFile, base.tlsCertFile);
    TextTold(m, c, passwordFile, TlsKeyFile, c.tlsKeyFile, base.tlsKeyFile);
    TextTold(m, c, passwordFile, AccessTlsCertFile, c.accessTlsCertFile, base.accessTlsCertFile);
    TextTold(m, c, passwordFile, AccessTlsKeyFile, c.accessTlsKeyFile, base.accessTlsKeyFile);
  }

  lemma AddressTextsTold(m: map<string, string>, c: Config, passwordFile: string, base: Config,
                         files: map<string, string>)
    requires forall k :: Tells(m, c, passwordFile, k)
    ensures var r := ApplyEditableValues(base, m, files);
      (r.listenAddress == c.listenAddress <==> Bare(c.listenAddress)) &&
      (r.httpsListenAddress == c.httpsListenAddress <==> Bare(c.httpsListenAddress)) &&
      (r.panelDomain == c.panelDomain <==> Bare(c.panelDomain)) &&
      (r.accessDomain == c.accessDomain <==> Bare(c.accessDomain)) &&
      (r.accessScheme == c.accessScheme <==> Bare(c.accessScheme))
  {
    hide Tells, Name, ReadValue, Bare, DurationOr, PortOr, PasswordOr, TextOr, Atoi, ParseBool, SplitList;
    TextTold(m, c, passwordFile, ListenAddr, c.listenAddress, base.listenAddress);
    TextTold(m, c, passwordFile, HttpsListenAddr, c.httpsListenAddress, base.httpsListenAddress);
    TextTold(m, c, passwordFile, PanelDomain, c.panelDomain, base.panelDomain);
    TextTold(m, c, passwordFile, AccessDomain, c.accessDomain, base.accessDomain);
    TextTold(m, c, passwordFile, AccessScheme, c.accessScheme, base.accessScheme);
  }

  /** The password file that an override names, without white space around it. */
  function NamedPasswordFile(override: Option<string>): string {
    if override.None? then ""
    else
      var values := Read(Split(override.value, '\n'));
      if values.Ok? && Name(SmtpPasswordFile) in values.value
      then TrimSpace(values.value[Name(SmtpPasswordFile)]) else ""
  }

  /** What is in the override file, over the configuration it starts from. */
  function Overridden(base: Config, override: Option<string>, files: map<string, string>): Config {
    if override.None? then base
    else
      match Read(Split(override.value, '\n'))
      case Ok(values) => if values == map[] then base else ApplyEditableValues(base, values, files)
      case Err(_) => base
  }

  /** Which texts of `c` have come through the file and are in `o`. */
  predicate TextsTold(o: Config, c: Config) {
    (o.smtpHost == c.smtpHost <==> Bare(c.smtpHost)) && (o.smtpUsername == c.smtpUsername <==> Bare(c.smtpUsername)) &&
    (o.smtpFrom == c.smtpFrom <==> Bare(c.smtpFrom)) &&
    (o.tlsCertFile == c.tlsCertFile <==> Bare(c.tlsCertFile)) &&
    (o.tlsKeyFile == c.tlsKeyFile <==> Bare(c.tlsKeyFile)) &&
    (o.accessTlsCertFile == c.accessTlsCertFile <==> Bare(c.accessTlsCertFile)) &&
    (o.accessTlsKeyFile == c.accessTlsKeyFile <==> Bare(c.accessTlsKeyFile)) &&
    (o.listenAddress == c.listenAddress <==> Bare(c.listenAddress)) &&
    (o.httpsListenAddress == c.httpsListenAddress <==> Bare(c.httpsListenAddress)) &&
    (o.panelDomain == c.panelDomain <==> Bare(c.panelDomain)) &&
    (o.accessDomain == c.accessDomain <==> Bare(c.accessDomain)) &&
    (o.accessScheme == c.accessScheme <==> Bare(c.accessScheme))
  }

  /** The same for the other settings; the mode is that of the port. */
  predicate NumbersTold(o: Config, c: Config) {
    o.mfaEnabled == c.mfaEnabled && o.mfaMethods == c.mfaMethods && o.emailCodeTTL == c.emailCodeTTL &&
    o.authSessionTTL == c.authSessionTTL && o.authSessionIdleTTL == c.authSessionIdleTTL &&
    o.smtpPort == c.smtpPort && o.smtpTLSMode == TLSModeForPort(c.smtpPort) &&
    (o.accessHTTPPort == c.accessHTTPPort <==> IsPort(c.accessHTTPPort)) &&
    (o.accessHTTPSPort == c.accessHTTPSPort <==> IsPort(c.accessHTTPSPort))
  }

  /** Setting by setting: what printing a configuration and reading it over any other gives back. */
  lemma FieldsReadBack(c: Config, passwordFile: string, base: Config, files: map<string, string>)
    requires Printable(c, passwordFile)
    ensures var o := Overridden(base, Some(RenderOverride(c, passwordFile)), files);
      TextsTold(o, c) && NumbersTold(o, c)
  {
    hide RenderOverride, Read, Split, Bare, Tells, ApplyEditableValues;
    var m := ReadOfRendered(c, passwordFile);
    assert Tells(m, c, passwordFile, MfaEnabled);
    assert m != map[] by { TellsSomething(m, c, passwordFile); }
    OthersTold(m, c, passwordFile, base, files);
    MailTextsTold(m, c, passwordFile, base, files);
    FileTextsTold(m, c, passwordFile, base, files);
    AddressTextsTold(m, c, passwordFile, base, files);
  }

  /**
   Printing a configuration and reading it over any other gives it back, up to the password, exactly
   when every text is trimmed and not wrapped in quotes, the access ports are in range and the
   transport mode is the one of the mail port.
   */
  lemma PrintedSettingsReadBackExactlyWhen(c: Config, passwordFile: string, base: Config, files: map<string, string>)
    requires Printable(c, passwordFile)
    ensures SameButPassword(Overridden(base, Some(RenderOverride(c, passwordFile)), files), c) <==> Faithful(c)
  {
    hide RenderOverride, Overridden, Bare, Printable;
    FieldsReadBack(c, passwordFile, base, files);
  }

  /** The password that a printed file leads to: what its password file holds, or the one before. */
  function PasswordRead(passwordFile: string, files: map<string, string>, prior: string): string {
    var path := if passwordFile == "" then "" else TrimSpace(ReadValue(passwordFile));
    if path != "" && path in files then TrimSpace(files[path]) else prior
  }

  lemma PasswordReadsBack(c: Config, passwordFile: string, base: Config, files: map<string, string>)
    requires Printable(c, passwordFile)
    ensures Overridden(base, Some(RenderOverride(c, passwordFile)), files).smtpPassword ==
            PasswordRead(passwordFile, files, base.smtpPassword)
    ensures NamedPasswordFile(Some(RenderOverride(c, passwordFile))) ==
            if passwordFile == "" then "" else TrimSpace(ReadValue(passwordFile))
  {
    hide RenderOverride, Read, Split, Name, ReadValue, TrimSpace, ValueText, TextOr, DurationOr, PortOr, SplitList,
         Atoi, ParseBool;
    var m := ReadOfRendered(c, passwordFile);
    assert Tells(m, c, passwordFile, MfaEnabled);
    TellsSomething(m, c, passwordFile);
  }

  lemma TellsSomething(m: map<string, string>, c: Config, passwordFile: string)
    requires Tells(m, c, passwordFile, MfaEnabled)
    ensures m != map[]
  {
  }

  /***** Environment variables *****/

  /** The variables that take a setting out of the administrator's hands when they are set. */
  datatype Var =
    | EnvMfaEnabled | EnvMfaMethods | EnvEmailCodeTTL | EnvAuthSessionTTL | EnvAuthSessionIdleTTL
    | EnvSmtpHost | EnvSmtpPort | EnvSmtpUsername | EnvSmtpPassword | EnvSmtpPasswordFile | EnvSmtpFrom
    | EnvTlsCertFile | EnvTlsKeyFile | EnvAccessTlsCertFile | EnvAccessTlsKeyFile
    | EnvAccessHTTPPort | EnvAccessHTTPSPort | EnvListenAddr | EnvHttpsListenAddr
    | EnvPanelDomain | EnvAccessDomain | EnvAccessScheme

  predicate PasswordLocked(env: set<Var>) {
    EnvSmtpPassword in env || EnvSmtpPasswordFile in env
  }

  /** Either access port being set also locks whether the panel's ports are reused. */
  predicate ReuseLocked(env: set<Var>) {
    EnvAccessHTTPPort in env || EnvAccessHTTPSPort in env
  }

  function Preserve(env: set<Var>, active: Config, d: Config): Config {
    Config(
      if EnvMfaEnabled in env then active.mfaEnabled else d.mfaEnabled,
      if EnvMfaMethods in env then active.mfaMethods else d.mfaMethods,
      if EnvEmailCodeTTL in env then active.emailCodeTTL else d.emailCodeTTL,
      if EnvAuthSessionTTL in env then active.authSessionTTL else d.authSessionTTL,
      if EnvAuthSessionIdleTTL in env then active.authSessionIdleTTL else d.authSessionIdleTTL,
      if EnvSmtpHost in env then active.smtpHost else d.smtpHost,
      if EnvSmtpPort in env then active.smtpPort else d.smtpPort,
      if EnvSmtpUsername in env then active.smtpUsername else d.smtpUsername,
      if PasswordLocked(env) then active.smtpPassword else d.smtpPassword,
      if EnvSmtpFrom in env then active.smtpFrom else d.smtpFrom,
      if EnvSmtpPort in env then active.smtpTLSMode else d.smtpTLSMode,
      if EnvTlsCertFile in env then active.tlsCertFile else d.tlsCertFile,
      if EnvTlsKeyFile in env then active.tlsKeyFile else d.tlsKeyFile,
      if EnvAccessTlsCertFile in env then active.accessTlsCertFile else d.accessTlsCertFile,
      if EnvAccessTlsKeyFile in env then active.accessTlsKeyFile else d.accessTlsKeyFile,
      if ReuseLocked(env) then active.accessHTTPPort else d.accessHTTPPort,
      if ReuseLocked(env) then active.accessHTTPSPort else d.accessHTTPSPort,
      if EnvListenAddr in env then active.listenAddress else d.listenAddress,
      if EnvHttpsListenAddr in env then active.httpsListenAddress else d.httpsListenAddress,
      if EnvPanelDomain in env then active.panelDomain else d.panelDomain,
      if EnvAccessDomain in env then active.accessDomain else d.accessDomain,
      if EnvAccessDomain in env || EnvAccessScheme in env then active.accessScheme else d.accessScheme)
  }

  function Insert(sorted: seq<string>, s: string): seq<string> {
    if sorted == [] then [s] else if !Less(sorted[0], s) then [s] + sorted else [sorted[0]] + Insert(sorted[1..], s)
  }

  function Sorted(xs: seq<string>): seq<string> {
    if xs == [] then [] else Insert(Sorted(xs[1..]), xs[0])
  }

  function MethodsKey(methods: seq<string>): string {
    Join(Sorted(methods), ',')
  }

  predicate Reuses(c: Config) {
    c.accessHTTPPort == 0 && c.accessHTTPSPort == 0
  }

  /** `rejectLockedChanges` finds nothing to complain about. */
  predicate RespectsLocks(env: set<Var>, active: Config, c: Config) {
    (EnvMfaEnabled in env ==> c.mfaEnabled == active.mfaEnabled) &&
    (EnvMfaMethods in env ==> MethodsKey(c.mfaMethods) == MethodsKey(active.mfaMethods)) &&
    (EnvEmailCodeTTL in env ==> c.emailCodeTTL == active.emailCodeTTL) &&
    (EnvAuthSessionTTL in env ==> c.authSessionTTL == active.authSessionTTL) &&
    (EnvAuthSessionIdleTTL in env ==> c.authSessionIdleTTL == active.authSessionIdleTTL) &&
    (EnvSmtpHost in env ==> c.smtpHost == active.smtpHost) &&
    (EnvSmtpPort in env ==> c.smtpPort == active.smtpPort) &&
    (EnvSmtpUsername in env ==> c.smtpUsername == active.smtpUsername) &&
    (EnvSmtpFrom in env ==> c.smtpFrom == active.smtpFrom) &&
    (EnvTlsCertFile in env ==> c.tlsCertFile == active.tlsCertFile) &&
    (EnvTlsKeyFile in env ==> c.tlsKeyFile == active.tlsKeyFile) &&
    (EnvAccessTlsCertFile in env ==> c.accessTlsCertFile == active.accessTlsCertFile) &&
    (EnvAccessTlsKeyFile in env ==> c.accessTlsKeyFile == active.accessTlsKeyFile) &&
    (ReuseLocked(env) ==> Reuses(c) == Reuses(active)) &&
    (EnvAccessHTTPPort in env ==> c.accessHTTPPort == active.accessHTTPPort) &&
    (EnvAccessHTTPSPort in env ==> c.accessHTTPSPort == active.accessHTTPSPort) &&
    (EnvListenAddr in env ==> c.listenAddress == active.listenAddress) &&
    (EnvHttpsListenAddr in env ==> c.httpsListenAddress == active.httpsListenAddress) &&
    (EnvPanelDomain in env ==> c.panelDomain == active.panelDomain) &&
    (EnvAccessDomain in env ==> c.accessDomain == active.accessDomain)
  }

  lemma PreserveTwice(env: set<Var>, active: Config, d: Config)
    ensures Preserve(env, active, Preserve(env, active, d)) == Preserve(env, active, d)
  {
  }

  /***** Save and Current *****/

  /** What of the network and mail libraries is used: addresses with ports, and the checks left to them. */
  datatype Libraries = Libraries(portOf: string -> int, withPort: (string, int) -> string, accepts: Config -> bool)

  datatype PanelSettings = PanelSettings(
    mfaEnabled: bool, mfaMethods: seq<string>, emailCodeTTL: string, authSessionTTL: string, authSessionIdleTTL: string,
    smtpHost: string, smtpPort: int, smtpUsername: string, smtpFrom: string,
    tlsCertFile: string, tlsKeyFile: string, accessTlsCertFile: string, accessTlsKeyFile: string,
    reusePanelPorts: bool, accessHTTPPort: int, accessHTTPSPort: int, httpPort: int, httpsPort: int,
    panelDomain: string, accessDomain: string)

  /** Whole minutes. */
  function FormatMinutes(d: int): string {
    Itoa(if d < 0 then -(-d / Durations.MINUTE) else d / Durations.MINUTE) + "m"
  }

  function FormatCompact(d: int): string {
    if d % Durations.HOUR == 0 then Itoa(d / Durations.HOUR) + "h"
    else if d % Durations.MINUTE == 0 then Itoa(d / Durations.MINUTE) + "m"
    else Durations.Show(d)
  }

  /** The page without what only says whether a password is kept. */
  function Panel(lib: Libraries, c: Config): PanelSettings {
    PanelSettings(c.mfaEnabled, c.mfaMethods, FormatMinutes(c.emailCodeTTL), FormatCompact(c.authSessionTTL),
                  FormatCompact(c.authSessionIdleTTL), c.smtpHost, c.smtpPort, c.smtpUsername, c.smtpFrom,
                  c.tlsCertFile, c.tlsKeyFile, c.accessTlsCertFile, c.accessTlsKeyFile,
                  Reuses(c), c.accessHTTPPort, c.accessHTTPSPort, lib.portOf(c.listenAddress),
                      lib.portOf(c.httpsListenAddress),
                  c.panelDomain, c.accessDomain)
  }

  predicate SameEditable(a: Config, b: Config) {
    MethodsKey(a.mfaMethods) == MethodsKey(b.mfaMethods) &&
      a.(mfaMethods := [], smtpTLSMode := "") == b.(mfaMethods := [], smtpTLSMode := "")
  }

  predicate HasOneOf(s: string, chars: string) {
    exists c | c in s :: c in chars
  }

  predicate EndsWith(s: string, end: string) {
    |s| >= |end| && s[|s| - |end|..] == end
  }

  predicate IsLocalDomain(domain: string) {
    domain == "localhost" || EndsWith(domain, ".localhost") || EndsWith(domain, ".127.0.0.1.nip.io")
  }

  predicate MethodsAllowed(methods: seq<string>) {
    (forall i | 0 <= i < |methods| :: methods[i] == "totp" || methods[i] == "email") &&
    forall i, j | 0 <= i < j < |methods| :: methods[i] != methods[j]
  }

  /** `validate`, with the checks of addresses and of the sender left to the libraries. */
  predicate Validates(lib: Libraries, c: Config) {
    (c.accessScheme == "http" || c.accessScheme == "https") &&
    !HasOneOf(c.accessDomain, "/: ") && !HasOneOf(c.panelDomain, "/: ") &&
    !(c.panelDomain != "" && c.accessDomain != "" &&
      (c.panelDomain == c.accessDomain || EndsWith(c.panelDomain, "." + c.accessDomain))) &&
    ((c.accessHTTPPort == 0) <==> (c.accessHTTPSPort == 0)) &&
    (c.accessHTTPPort != 0 ==>
       c.accessDomain != "" && c.accessHTTPPort != c.accessHTTPSPort &&
       var panel := {lib.portOf(c.listenAddress), lib.portOf(c.httpsListenAddress)};
       c.accessHTTPPort !in panel && c.accessHTTPSPort !in panel) &&
    (c.tlsCertFile == "" <==> c.tlsKeyFile == "") && (c.accessTlsCertFile == "" <==> c.accessTlsKeyFile == "") &&
    (c.accessTlsCertFile != "" ==> c.tlsCertFile != "" && c.accessDomain != "") &&
    MethodsAllowed(c.mfaMethods) &&
    (c.mfaEnabled ==> c.mfaMethods != [] && c.smtpHost != "" && c.smtpFrom != "") &&
    lib.accepts(c)
  }

  lemma AllowedAreWords(methods: seq<string>)
    requires MethodsAllowed(methods)
    ensures AllWords(methods)
  {
    assert IsWord("totp") && IsWord("email");
  }

  datatype Input = Input(settings: PanelSettings, smtpPassword: string, clearPassword: bool)

  datatype Error = Locked | LineBreak | BadDuration | BadPort | BothPasswords | Invalid

  function TrimDots(s: string): string
    decreases |s|
  {
    if s != "" && s[0] == '.' then TrimDots(s[1..])
    else if s != "" && s[|s| - 1] == '.' then TrimDots(s[..|s| - 1]) else s
  }

  function DomainOf(s: string): string {
    Lower(TrimDots(TrimSpace(s)))
  }

  predicate HasBreak(s: string) {
    '\n' in s || '\r' in s
  }

  method NormalizedMethods(values: seq<string>) returns (result: seq<string>)
    ensures MethodsFrom(result, values) && InOrder(result)
  {
    hide Lower, TrimSpace;
    var seen: set<string> := {};
    result := [];
    for i := 0 to |values|
      invariant forall s :: s in seen <==> s in result
      invariant MethodsFrom(result, values[..i]) && NoRepeats(result)
    {
      var value := Lower(TrimSpace(values[i]));
      OneMoreMethod(values, i);
      if value != "" && value !in seen {
        seen := seen + {value};
        result := result + [value];
      }
    }
    assert values[..|values|] == values;
    SortedKeeps(result);
    SortedIsInOrder(result);
    result := Sorted(result);
  }

  lemma OneMoreMethod(values: seq<string>, n: nat)
    requires n < |values|
    ensures forall m :: MethodNamed(values[..n + 1], m) <==>
                        MethodNamed(values[..n], m) || (m != "" && m == Lower(TrimSpace(values[n])))
  {
    hide Lower, TrimSpace;
    forall m ensures MethodNamed(values[..n + 1], m) <==>
                     MethodNamed(values[..n], m) || (m != "" && m == Lower(TrimSpace(values[n])))
    {
      if MethodNamed(values[..n], m) {
        var i :| 0 <= i < n && Lower(TrimSpace(values[..n][i])) == m;
        assert values[..n + 1][i] == values[i];
      }
      if m != "" && m == Lower(TrimSpace(values[n])) {
        assert values[..n + 1][n] == values[n];
      }
      if MethodNamed(values[..n + 1], m) {
        var i :| 0 <= i < n + 1 && Lower(TrimSpace(values[..n + 1][i])) == m;
        if i < n {
          assert values[..n][i] == values[i];
        }
      }
    }
  }

  lemma {:induction false} InsertKeeps(sorted: seq<string>, s: string)
    ensures forall x :: x in Insert(sorted, s) <==> x == s || x in sorted
  {
    if sorted != [] {
      InsertKeeps(sorted[1..], s);
      assert sorted == [sorted[0]] + sorted[1..];
    }
  }

  lemma {:induction false} SortedKeeps(xs: seq<string>)
    ensures forall x :: x in Sorted(xs) <==> x in xs
  {
    if xs != [] {
      SortedKeeps(xs[1..]);
      InsertKeeps(Sorted(xs[1..]), xs[0]);
      assert xs == [xs[0]] + xs[1..];
    }
  }

  lemma {:induction false} InsertKeepsOrder(sorted: seq<string>, s: string)
    requires InOrder(sorted) && s !in sorted
    ensures InOrder(Insert(sorted, s))
  {
    var r := Insert(sorted, s);
    if sorted != [] {
      LessIsTotal(sorted[0], s);
      TailInOrder(sorted);
      if Less(sorted[0], s) {
        InsertKeepsOrder(sorted[1..], s);
        InsertKeeps(sorted[1..], s);
        forall i, j | 0 <= i < j < |r| ensures Less(r[i], r[j]) {
          assert r[j] in Insert(sorted[1..], s);
          assert r[j] != s ==> exists k | 0 < k < |sorted| :: sorted[k] == r[j];
        }
      } else {
        forall j | 1 < j < |r| ensures Less(s, r[j]) {
          LessIsTransitive(s, sorted[0], sorted[j - 1]);
        }
      }
    }
  }

  lemma {:induction false} SortedIsInOrder(xs: seq<string>)
    requires NoRepeats(xs)
    ensures InOrder(Sorted(xs))
  {
    if xs != [] {
      assert forall i | 0 <= i < |xs[1..]| :: xs[1..][i] == xs[i + 1];
      SortedIsInOrder(xs[1..]);
      SortedKeeps(xs[1..]);
      InsertKeepsOrder(Sorted(xs[1..]), xs[0]);
    }
  }

  function Durational(s: string, prior: int): Option<int> {
    if TrimSpace(s) == "" then Some(prior) else Durations.Parse(TrimSpace(s))
  }

  predicate PasswordGiven(input: Input) {
    TrimSpace(input.smtpPassword) != ""
  }

  /** The texts and numbers that are taken over from the page. */
  predicate TypedFrom(c: Config, s: PanelSettings) {
    c.mfaEnabled == s.mfaEnabled && c.smtpHost == TrimSpace(s.smtpHost) && c.smtpPort == s.smtpPort &&
    c.smtpTLSMode == TLSModeForPort(s.smtpPort) &&
    c.smtpUsername == TrimSpace(s.smtpUsername) && c.smtpFrom == TrimSpace(s.smtpFrom) &&
    c.tlsCertFile == TrimSpace(s.tlsCertFile) && c.tlsKeyFile == TrimSpace(s.tlsKeyFile) &&
    c.accessTlsCertFile == TrimSpace(s.accessTlsCertFile) && c.accessTlsKeyFile == TrimSpace(s.accessTlsKeyFile) &&
    c.panelDomain == DomainOf(s.panelDomain) && c.accessDomain == DomainOf(s.accessDomain)
  }

  function SchemeFor(domain: string): string {
    if IsLocalDomain(domain) then "http" else "https"
  }

  /** What depends on several settings, on the running configuration or on what is pending. */
  predicate ChosenFrom(lib: Libraries, c: Config, input: Input, active: Config, pending: Config) {
    var s := input.settings;
    Durations.Parse(TrimSpace(s.emailCodeTTL)) == Some(c.emailCodeTTL) &&
    Durational(s.authSessionTTL, pending.authSessionTTL) == Some(c.authSessionTTL) &&
    Durational(s.authSessionIdleTTL, pending.authSessionIdleTTL) == Some(c.authSessionIdleTTL) &&
    (if s.reusePanelPorts then Reuses(c)
     else c.accessHTTPPort == s.accessHTTPPort && c.accessHTTPSPort == s.accessHTTPSPort) &&
    c.listenAddress == lib.withPort(active.listenAddress, s.httpPort) &&
    c.httpsListenAddress == lib.withPort(active.httpsListenAddress, s.httpsPort) &&
    c.accessScheme == (if c.accessDomain == "" then pending.accessScheme else SchemeFor(c.accessDomain)) &&
    c.smtpPassword ==
    if input.clearPassword then "" else if PasswordGiven(input) then input.smtpPassword else pending.smtpPassword
  }

  predicate MethodNamed(values: seq<string>, m: string) {
    m != "" && exists i :: 0 <= i < |values| && Lower(TrimSpace(values[i])) == m
  }

  ghost predicate MethodsFrom(methods: seq<string>, values: seq<string>) {
    forall m :: m in methods <==> MethodNamed(values, m)
  }

  /** What the administrator asks for, given what is running and what is pending. */
  ghost predicate IsCandidate(lib: Libraries, c: Config, input: Input, active: Config, pending: Config) {
    TypedFrom(c, input.settings) && ChosenFrom(lib, c, input, active, pending) &&
    MethodsFrom(c.mfaMethods, input.settings.mfaMethods) && InOrder(c.mfaMethods)
  }

  /** There is at most one such configuration. */
  lemma CandidateIsUnique(lib: Libraries, a: Config, b: Config, input: Input, active: Config, pending: Config)
    requires IsCandidate(lib, a, input, active, pending) && IsCandidate(lib, b, input, active, pending)
    ensures a == b
  {
    hide MethodNamed, TrimSpace, Lower, TrimDots, Durations.Parse, SchemeFor;
    forall m ensures m in a.mfaMethods <==> m in b.mfaMethods {
      assert m in a.mfaMethods <==> MethodNamed(input.settings.mfaMethods, m);
    }
    InOrderIsUnique(a.mfaMethods, b.mfaMethods);
  }

  /** Some text that would be printed on a line of its own has a line break. */
  predicate PageBreaks(s: PanelSettings) {
    HasBreak(s.emailCodeTTL) || HasBreak(TrimSpace(s.smtpHost)) || HasBreak(TrimSpace(s.smtpUsername)) ||
    HasBreak(TrimSpace(s.smtpFrom)) || HasBreak(TrimSpace(s.tlsCertFile)) || HasBreak(TrimSpace(s.tlsKeyFile)) ||
    HasBreak(TrimSpace(s.accessTlsCertFile)) || HasBreak(TrimSpace(s.accessTlsKeyFile)) ||
    HasBreak(DomainOf(s.panelDomain)) || HasBreak(DomainOf(s.accessDomain))
  }

  predicate DurationsParse(s: PanelSettings, pending: Config) {
    Durations.Parse(TrimSpace(s.emailCodeTTL)).Some? && Durational(s.authSessionTTL, pending.authSessionTTL).Some? &&
    Durational(s.authSessionIdleTTL, pending.authSessionIdleTTL).Some?
  }

  predicate PanelPortsDiffer(s: PanelSettings) {
    1 <= s.httpPort <= 65535 && 1 <= s.httpsPort <= 65535 && s.httpPort != s.httpsPort
  }

  /** What is wrong with the page before it is looked at as a configuration: the first of four complaints. */
  function FirstComplaint(input: Input, pending: Config): Option<Error> {
    if PageBreaks(input.settings) then Some(LineBreak)
    else if !DurationsParse(input.settings, pending) then Some(BadDuration)
    else if !PanelPortsDiffer(input.settings) then Some(BadPort)
    else if input.clearPassword && PasswordGiven(input) then Some(BothPasswords) else None
  }

  /** A locked password may be neither typed nor cleared. */
  predicate TouchesLockedPassword(env: set<Var>, input: Input) {
    PasswordLocked(env) && (PasswordGiven(input) || input.clearPassword)
  }

  /***** What locks and the file cannot hold *****/

  /**
   Under the locks of `env`, what the administrator asks for is what `active` has anyway, where the check of
   locked fields does not look: the methods in their order, the mode of the mail port, the other access port
   when the environment sets one, and the scheme that goes with the domain.
   */
  ghost predicate KeptUnderLocks(env: set<Var>, active: Config, s: PanelSettings) {
    (EnvMfaMethods in env ==> InOrder(active.mfaMethods) && MethodsFrom(active.mfaMethods, s.mfaMethods)) &&
    (EnvSmtpPort in env ==> active.smtpTLSMode == TLSModeForPort(active.smtpPort)) &&
    (EnvAccessHTTPPort in env && EnvAccessHTTPSPort !in env ==>
       s.reusePanelPorts || s.accessHTTPSPort == active.accessHTTPSPort) &&
    (EnvAccessHTTPSPort in env && EnvAccessHTTPPort !in env ==>
       s.reusePanelPorts || s.accessHTTPPort == active.accessHTTPPort) &&
    (EnvAccessDomain in env || EnvAccessScheme in env ==>
       DomainOf(s.accessDomain) == "" || active.accessScheme == SchemeFor(DomainOf(s.accessDomain)))
  }

  /** A candidate agrees with the running configuration on what the check leaves out, but for the password. */
  predicate Agrees(env: set<Var>, active: Config, c: Config) {
    (EnvMfaMethods in env ==> c.mfaMethods == active.mfaMethods) &&
    (EnvSmtpPort in env ==> c.smtpTLSMode == active.smtpTLSMode) &&
    (ReuseLocked(env) ==> c.accessHTTPPort == active.accessHTTPPort && c.accessHTTPSPort == active.accessHTTPSPort) &&
    (EnvAccessDomain in env || EnvAccessScheme in env ==> c.accessScheme == active.accessScheme)
  }

  lemma AcceptedPortsAgreeExactlyWhen(env: set<Var>, active: Config, c: Config, s: PanelSettings)
    requires RespectsLocks(env, active, c) && ReuseLocked(env)
    requires if s.reusePanelPorts then Reuses(c)
             else c.accessHTTPPort == s.accessHTTPPort && c.accessHTTPSPort == s.accessHTTPSPort
    ensures c.accessHTTPPort == active.accessHTTPPort && c.accessHTTPSPort == active.accessHTTPSPort <==>
            (EnvAccessHTTPPort in env && EnvAccessHTTPSPort !in env ==>
               s.reusePanelPorts || s.accessHTTPSPort == active.accessHTTPSPort) &&
            (EnvAccessHTTPSPort in env && EnvAccessHTTPPort !in env ==>
               s.reusePanelPorts || s.accessHTTPPort == active.accessHTTPPort)
  {
  }

  lemma MethodsAgreeExactlyWhen(active: Config, c: Config, s: PanelSettings)
    requires MethodsFrom(c.mfaMethods, s.mfaMethods) && InOrder(c.mfaMethods)
    ensures c.mfaMethods == active.mfaMethods <==>
            InOrder(active.mfaMethods) && MethodsFrom(active.mfaMethods, s.mfaMethods)
  {
    hide MethodNamed;
    if InOrder(active.mfaMethods) && MethodsFrom(active.mfaMethods, s.mfaMethods) {
      forall m ensures m in active.mfaMethods <==> m in c.mfaMethods {
        assert m in active.mfaMethods <==> MethodNamed(s.mfaMethods, m);
      }
      InOrderIsUnique(active.mfaMethods, c.mfaMethods);
    }
  }

  lemma AcceptedAgreesExactlyWhen(lib: Libraries, env: set<Var>, active: Config, input: Input, desired: Config,
                                  c: Config)
    requires IsCandidate(lib, c, input, active, Preserve(env, active, desired)) && RespectsLocks(env, active, c)
    ensures Agrees(env, active, c) <==> KeptUnderLocks(env, active, input.settings)
  {
    hide MethodsFrom, MethodsKey, TrimSpace, Lower, TrimDots, InOrder, Durational, Durations.Parse, SchemeFor;
    MethodsAgreeExactlyWhen(active, c, input.settings);
    if ReuseLocked(env) {
      AcceptedPortsAgreeExactlyWhen(env, active, c, input.settings);
    }
  }

  /**
   A candidate that passes the checks of locked fields is a fixed point of the preserve step - the environment
   will not change what was saved - exactly when what the page asks for is kept under the locks.
   */
  lemma AcceptedIsFixedExactlyWhen(lib: Libraries, env: set<Var>, active: Config, input: Input, desired: Config,
                                   c: Config)
    requires IsCandidate(lib, c, input, active, Preserve(env, active, desired))
    requires RespectsLocks(env, active, c) && !TouchesLockedPassword(env, input)
    ensures Preserve(env, active, c) == c <==> KeptUnderLocks(env, active, input.settings)
  {
    hide IsCandidate, KeptUnderLocks, MethodsKey;
    AcceptedAgreesExactlyWhen(lib, env, active, input, desired, c);
    LockedPasswordAgrees(lib, env, active, input, desired, c);
    var p := Preserve(env, active, c);
    if Agrees(env, active, c) {
      assert p.mfaMethods == c.mfaMethods;
    }
  }

  lemma LockedPasswordAgrees(lib: Libraries, env: set<Var>, active: Config, input: Input, desired: Config, c: Config)
    requires IsCandidate(lib, c, input, active, Preserve(env, active, desired)) && !TouchesLockedPassword(env, input)
    ensures PasswordLocked(env) ==> c.smtpPassword == active.smtpPassword
  {
    hide MethodsFrom, TrimSpace, Lower, TrimDots, InOrder, Durational, Durations.Parse, SchemeFor;
  }

  /** With only one access port set by the environment, a valid change of the other is accepted and then lost. */
  lemma OtherAccessPortIsLost(lib: Libraries, active: Config, port: int)
    requires Validates(lib, active) &&
             Validates(lib, active.(accessHTTPSPort := port)) && port != active.accessHTTPSPort
    ensures var c := active.(accessHTTPSPort := port);
      RespectsLocks({EnvAccessHTTPPort}, active, c) && Preserve({EnvAccessHTTPPort}, active, c) == active != c
  {
    hide MethodsKey;
  }

  /** What the file can hold of the page: every text that no lock replaces is not wrapped in quotes, and so on. */
  predicate HeldByFile(lib: Libraries, env: set<Var>, active: Config, s: PanelSettings) {
    (EnvSmtpHost in env || !Quoted(TrimSpace(s.smtpHost))) &&
    (EnvSmtpUsername in env || !Quoted(TrimSpace(s.smtpUsername))) &&
    (EnvSmtpFrom in env || !Quoted(TrimSpace(s.smtpFrom))) &&
    (EnvTlsCertFile in env || !Quoted(TrimSpace(s.tlsCertFile))) &&
    (EnvTlsKeyFile in env || !Quoted(TrimSpace(s.tlsKeyFile))) &&
    (EnvAccessTlsCertFile in env || !Quoted(TrimSpace(s.accessTlsCertFile))) &&
    (EnvAccessTlsKeyFile in env || !Quoted(TrimSpace(s.accessTlsKeyFile))) &&
    (EnvListenAddr in env || Bare(lib.withPort(active.listenAddress, s.httpPort))) &&
    (EnvHttpsListenAddr in env || Bare(lib.withPort(active.httpsListenAddress, s.httpsPort))) &&
    (EnvPanelDomain in env || Bare(DomainOf(s.panelDomain))) &&
    (EnvAccessDomain in env || Bare(DomainOf(s.accessDomain))) &&
    (ReuseLocked(env) || s.reusePanelPorts || (IsPort(s.accessHTTPPort) && IsPort(s.accessHTTPSPort)))
  }

  /** The same, said of a candidate. */
  predicate BareUnlessLocked(env: set<Var>, c: Config) {
    (EnvSmtpHost in env || Bare(c.smtpHost)) && (EnvSmtpUsername in env || Bare(c.smtpUsername)) &&
    (EnvSmtpFrom in env || Bare(c.smtpFrom)) &&
    (EnvTlsCertFile in env || Bare(c.tlsCertFile)) && (EnvTlsKeyFile in env || Bare(c.tlsKeyFile)) &&
    (EnvAccessTlsCertFile in env || Bare(c.accessTlsCertFile)) &&
    (EnvAccessTlsKeyFile in env || Bare(c.accessTlsKeyFile)) &&
    (EnvListenAddr in env || Bare(c.listenAddress)) && (EnvHttpsListenAddr in env || Bare(c.httpsListenAddress)) &&
    (EnvPanelDomain in env || Bare(c.panelDomain)) && (EnvAccessDomain in env || Bare(c.accessDomain)) &&
    (ReuseLocked(env) || (IsPort(c.accessHTTPPort) && IsPort(c.accessHTTPSPort)))
  }

  lemma HeldIsBare(lib: Libraries, env: set<Var>, active: Config, input: Input, pending: Config, c: Config)
    requires IsCandidate(lib, c, input, active, pending)
    ensures HeldByFile(lib, env, active, input.settings) <==> BareUnlessLocked(env, c)
  {
    hide MethodsFrom, TrimSpace, Trimmed, Quoted, Lower, TrimDots, InOrder, Durational, Durations.Parse, SchemeFor;
    var s := input.settings;
    TrimSpaceTrims(s.smtpHost);
    TrimSpaceTrims(s.smtpUsername);
    TrimSpaceTrims(s.smtpFrom);
    TrimSpaceTrims(s.tlsCertFile);
    TrimSpaceTrims(s.tlsKeyFile);
    TrimSpaceTrims(s.accessTlsCertFile);
    TrimSpaceTrims(s.accessTlsKeyFile);
  }

  /** An accepted candidate with what came back from the file under the locks: setting by setting. */
  lemma PreservedIsSameExactlyWhen(env: set<Var>, active: Config, o: Config, c: Config)
    requires TextsTold(o, c) && NumbersTold(o, c) && RespectsLocks(env, active, c)
    requires Bare(c.accessScheme) && c.smtpTLSMode == TLSModeForPort(c.smtpPort)
    ensures SameButPassword(Preserve(env, active, o), c) <==> Agrees(env, active, c) && BareUnlessLocked(env, c)
  {
    hide MethodsKey, Bare;
    var p := Preserve(env, active, o);
  }

  /**
   After a save the settings that `Current` reads are the ones saved, up to the password, exactly when the
   locks keep what the page asks for and the file can hold it.
   */
  lemma SavedIsShownExactlyWhen(lib: Libraries, env: set<Var>, active: Config, input: Input, desired: Config,
                                c: Config, passwordFile: string, files: map<string, string>)
    requires IsCandidate(lib, c, input, active, Preserve(env, active, desired))
    requires Validates(lib, c) && RespectsLocks(env, active, c) && Printable(c, passwordFile)
    ensures SameButPassword(Preserve(env, active, Overridden(active, Some(RenderOverride(c, passwordFile)), files)), c)
            <==>
            KeptUnderLocks(env, active, input.settings) && HeldByFile(lib, env, active, input.settings)
  {
    hide IsCandidate, RenderOverride, Overridden, Printable, KeptUnderLocks, HeldByFile, RespectsLocks, Agrees,
         BareUnlessLocked, Preserve;
    FieldsReadBack(c, passwordFile, active, files);
    SchemeIsBare(lib, c, input, active, Preserve(env, active, desired));
    PreservedIsSameExactlyWhen(env, active, Overridden(active, Some(RenderOverride(c, passwordFile)), files), c);
    AcceptedAgreesExactlyWhen(lib, env, active, input, desired, c);
    HeldIsBare(lib, env, active, input, Preserve(env, active, desired), c);
  }

  lemma SchemeIsBare(lib: Libraries, c: Config, input: Input, active: Config, pending: Config)
    requires Validates(lib, c) && IsCandidate(lib, c, input, active, pending)
    ensures Bare(c.accessScheme) && c.smtpTLSMode == TLSModeForPort(c.smtpPort)
  {
    hide MethodsFrom, TrimSpace, Lower, TrimDots, InOrder, Durational, Durations.Parse, HasOneOf, EndsWith,
         MethodsAllowed;
    assert Bare("http") && Bare("https");
  }

  function FirstNamed(a: string, b: string, c: string): string {
    if a != "" then a else if b != "" then b else c
  }

  class SettingsManager {
    const lib: Libraries
    const env: set<Var>
    const dataDirectory: string
    const active: Config
    /** Where the environment and the main configuration file say the password is, if they do. */
    const environmentPasswordFile: string
    const mainPasswordFile: string
    /** The override file, and the files a password may be read from. */
    var override: Option<string>
    var files: map<string, string>

    constructor (lib: Libraries, env: set<Var>, dataDirectory: string, environmentPasswordFile: string,
                 mainPasswordFile: string,
                 active: Config, override: Option<string>, files: map<string, string>)
      ensures this.lib == lib && this.env == env && this.dataDirectory == dataDirectory && this.active == active
      ensures this.environmentPasswordFile == environmentPasswordFile && this.mainPasswordFile == mainPasswordFile
      ensures this.override == override && this.files == files
    {
      this.lib, this.env, this.dataDirectory, this.active := lib, env, dataDirectory, active;
      this.environmentPasswordFile, this.mainPasswordFile := environmentPasswordFile, mainPasswordFile;
      this.override, this.files := override, files;
    }

    function Desired(): Config
      reads this
    {
      Preserve(env, active, Overridden(active, override, files))
    }

    method DesiredConfig() returns (desired: Config)
      ensures desired == Desired()
    {
      desired := active;
      if override.Some? {
        var values := ReadConfigFile(override.value);
        if values.Ok? && values.value != map[] {
          desired := ApplyEditableValues(desired, values.value, files);
        }
      }
      desired := Preserve(env, active, desired);
    }

    method Current() returns (settings: PanelSettings, restartRequired: bool)
      ensures settings == Panel(lib, Desired()) && restartRequired == !SameEditable(active, Desired())
    {
      var desired := DesiredConfig();
      settings, restartRequired := Panel(lib, desired), !SameEditable(active, desired);
    }

    /** The settings of the page, over what is pending. */
    method CandidateOf(input: Input) returns (r: Result<Config, Error>)
      ensures r.Err? <==> FirstComplaint(input, Desired()).Some?
      ensures r.Err? ==> FirstComplaint(input, Desired()) == Some(r.error)
      ensures r.Ok? ==> IsCandidate(lib, r.value, input, active, Desired()) && TypedIsOneLine(r.value)
    {
      hide Preserve, Overridden, Durations.Parse, TrimSpace, DomainOf, IsLocalDomain, InOrder, MethodsFrom, HasBreak,
           TypedIsOneLine, Durational;
      var s := input.settings;
      var methods := NormalizedMethods(s.mfaMethods);
      var smtpHost, smtpUsername, smtpFrom := TrimSpace(s.smtpHost), TrimSpace(s.smtpUsername), TrimSpace(s.smtpFrom);
      var tlsCert, tlsKey := TrimSpace(s.tlsCertFile), TrimSpace(s.tlsKeyFile);
      var accessCert, accessKey := TrimSpace(s.accessTlsCertFile), TrimSpace(s.accessTlsKeyFile);
      var panelDomain, accessDomain := DomainOf(s.panelDomain), DomainOf(s.accessDomain);
      if HasBreak(s.emailCodeTTL) || HasBreak(smtpHost) || HasBreak(smtpUsername) || HasBreak(smtpFrom) ||
         HasBreak(tlsCert) || HasBreak(tlsKey) || HasBreak(accessCert) || HasBreak(accessKey) ||
         HasBreak(panelDomain) ||
           HasBreak(accessDomain) {
        return Err(LineBreak);
      }
      var pending := DesiredConfig();
      var emailCodeTTL := Durations.Parse(TrimSpace(s.emailCodeTTL));
      var sessionTTL, idleTTL := Durational(s.authSessionTTL, pending.authSessionTTL),
          Durational(s.authSessionIdleTTL, pending.authSessionIdleTTL);
      if emailCodeTTL.None? || sessionTTL.None? || idleTTL.None? {
        return Err(BadDuration);
      }
      var httpPort, httpsPort := s.accessHTTPPort, s.accessHTTPSPort;
      if s.reusePanelPorts || (httpPort == 0 && httpsPort == 0) {
        httpPort, httpsPort := 0, 0;
      }
      if s.httpPort < 1 || s.httpPort > 65535 || s.httpsPort < 1 || s.httpsPort > 65535 || s.httpPort == s.httpsPort {
        return Err(BadPort);
      }
      var accessScheme := pending.accessScheme;
      if accessDomain != "" {
        accessScheme := if IsLocalDomain(accessDomain) then "http" else "https";
      }
      var password := pending.smtpPassword;
      if PasswordGiven(input) {
        password := input.smtpPassword;
      }
      if input.clearPassword && PasswordGiven(input) {
        return Err(BothPasswords);
      }
      if input.clearPassword {
        password := "";
      }
      var candidate := Config(
        s.mfaEnabled, methods, emailCodeTTL.value, sessionTTL.value, idleTTL.value, smtpHost, s.smtpPort, smtpUsername,
        password, smtpFrom, TLSModeForPort(s.smtpPort), tlsCert, tlsKey, accessCert, accessKey, httpPort, httpsPort,
        lib.withPort(active.listenAddress, s.httpPort), lib.withPort(active.httpsListenAddress, s.httpsPort),
        panelDomain, accessDomain, accessScheme);
      UnbrokenIsOneLine(candidate, s);
      return Ok(candidate);
    }

    /** The first that names a file: the environment, the override, the main configuration file. */
    ghost function PasswordFile(): string
      reads this
    {
      FirstNamed(TrimSpace(environmentPasswordFile), NamedPasswordFile(override), TrimSpace(mainPasswordFile))
    }

    method ConfiguredPasswordFile() returns (path: string)
      ensures path == PasswordFile()
      ensures TrimSpace(environmentPasswordFile) != "" ==> path == TrimSpace(environmentPasswordFile)
      ensures TrimSpace(environmentPasswordFile) == "" ==>
                path == if NamedPasswordFile(override) != "" then NamedPasswordFile(override)
                        else TrimSpace(mainPasswordFile)
    {
      hide Read, Split, TrimSpace, Name;
      path := TrimSpace(environmentPasswordFile);
      if path != "" {
        return;
      }
      if override.Some? {
        var values := ReadConfigFile(override.value);
        if values.Ok? && Name(SmtpPasswordFile) in values.value &&
           TrimSpace(values.value[Name(SmtpPasswordFile)]) != "" {
          return TrimSpace(values.value[Name(SmtpPasswordFile)]);
        }
      }
      path := TrimSpace(mainPasswordFile);
    }

    /** A password that no file holds and no variable gives is protected in a file of our own. */
    ghost predicate MustProtect(input: Input, candidate: Config)
      reads this
    {
      !input.clearPassword && !PasswordGiven(input) && candidate.smtpPassword != "" && PasswordFile() == "" &&
      EnvSmtpPassword !in env
    }

    /** The file that the override will name for the password, written first if it is new. */
    method KeepPassword(input: Input, candidate: Config) returns (passwordFile: string)
      modifies this`files
      ensures passwordFile ==
              if input.clearPassword then ""
              else if PasswordGiven(input) || old(MustProtect(input, candidate)) then OwnPasswordFile()
              else if candidate.smtpPassword == "" then "" else PasswordFile()
      ensures files ==
              if !input.clearPassword && PasswordGiven(input)
              then old(files)[OwnPasswordFile() := input.smtpPassword + "\n"]
              else if old(MustProtect(input, candidate))
              then old(files)[OwnPasswordFile() := candidate.smtpPassword + "\n"] else old(files)
    {
      hide FirstNamed, TrimSpace, NamedPasswordFile;
      passwordFile := "";
      if input.clearPassword {
        return;
      }
      if PasswordGiven(input) {
        files := files[OwnPasswordFile() := input.smtpPassword + "\n"];
        return OwnPasswordFile();
      }
      if candidate.smtpPassword != "" {
        passwordFile := ConfiguredPasswordFile();
        if passwordFile == "" && EnvSmtpPassword !in env {
          files := files[OwnPasswordFile() := candidate.smtpPassword + "\n"];
          passwordFile := OwnPasswordFile();
        }
      }
    }

    function OwnPasswordFile(): string {
      dataDirectory + "/smtp-password"
    }

    /** What `Save` answers: the complaints in the order in which they are looked for. */
    ghost predicate Answers(input: Input, pending: Config, r: Result<(Config, PanelSettings), Error>) {
      if TouchesLockedPassword(env, input) then r == Err(Locked)
      else if FirstComplaint(input, pending).Some? then r == Err(FirstComplaint(input, pending).value)
      else
        exists c :: IsCandidate(lib, c, input, active, pending) &&
          r == if !Validates(lib, c) then Err(Invalid) else if !RespectsLocks(env, active, c) then Err(Locked)
               else Ok((c, Panel(lib, c)))
    }

    /** The texts around the page that end up in the file are one line each. */
    predicate SingleLines(s: PanelSettings) {
      OneLine(dataDirectory) && OneLine(environmentPasswordFile) && OneLine(mainPasswordFile) &&
      OneLine(lib.withPort(active.listenAddress, s.httpPort)) &&
      OneLine(lib.withPort(active.httpsListenAddress, s.httpsPort))
    }

    /** On success the candidate itself is returned with what the page shows of it. */
    method Save(input: Input) returns (r: Result<(Config, PanelSettings), Error>)
      modifies this
      ensures Answers(input, old(Desired()), r)
      ensures r.Err? ==> override == old(override) && files == old(files)
      ensures r.Ok? ==> exists passwordFile :: override == Some(RenderOverride(r.value.0, passwordFile))
      // Exactly when saved settings are the ones read next; then the page shows them as it showed them to the saver.
      ensures r.Ok? && SingleLines(input.settings) ==>
                (SameButPassword(Desired(), r.value.0) <==>
                 KeptUnderLocks(env, active, input.settings) && HeldByFile(lib, env, active, input.settings))
      ensures r.Ok? && SameButPassword(Desired(), r.value.0) ==> Panel(lib, Desired()) == r.value.1
      // A typed password is read back without the white space around it; a cleared one is that of the running
      // configuration.
      ensures r.Ok? && SingleLines(input.settings) && PasswordGiven(input) && Bare(OwnPasswordFile()) ==>
                Desired().smtpPassword == TrimSpace(input.smtpPassword)
      ensures r.Ok? && SingleLines(input.settings) && input.clearPassword ==>
                Desired().smtpPassword == active.smtpPassword && NamedPasswordFile(override) == ""
    {
      hide Validates, RespectsLocks, KeptUnderLocks, HeldByFile, RenderOverride, Panel, TypedFrom, ChosenFrom,
           MethodsFrom, TypedIsOneLine, OneLine, SameButPassword, Overridden, Preserve, Read, Split, Name, TrimSpace,
           Printable, NamedPasswordFile, FirstComplaint, IsCandidate, FirstNamed, PasswordRead, Bare;
      if PasswordLocked(env) && (PasswordGiven(input) || input.clearPassword) {
        return Err(Locked);
      }
      ghost var desired := Overridden(active, override, files);
      var candidate := CandidateOf(input);
      if candidate.Err? {
        return Err(candidate.error);
      }
      var c := candidate.value;
      NotBothPasswords(input, Preserve(env, active, desired));
      if !Validates(lib, c) {
        return Err(Invalid);
      }
      if !RespectsLocks(env, active, c) {
        return Err(Locked);
      }
      ghost var before := override;
      var passwordFile := KeepPassword(input, c);
      override := Some(RenderOverride(c, passwordFile));
      if input.clearPassword {
        files := files - {OwnPasswordFile()};
      }
      if SingleLines(input.settings) {
        PasswordFileIsOneLine([environmentPasswordFile, mainPasswordFile], dataDirectory, before, passwordFile);
        CandidateIsPrintable(lib, c, input, active, Preserve(env, active, desired), passwordFile);
        SavedIsShownExactlyWhen(lib, env, active, input, desired, c, passwordFile, files);
        PasswordReadsBack(c, passwordFile, active, files);
        UnlockedPassword(env, active, Overridden(active, override, files));
        TypedPasswordIsRead(OwnPasswordFile(), input.smtpPassword, files, active.smtpPassword);
      }
      SameIsShownAlike(lib, Preserve(env, active, Overridden(active, override, files)), c);
      return Ok((c, Panel(lib, c)));
    }
  }

  lemma UnbrokenIsOneLine(c: Config, s: PanelSettings)
    requires TypedFrom(c, s) && !PageBreaks(s)
    ensures TypedIsOneLine(c)
  {
    hide TrimSpace, DomainOf;
  }

  lemma NotBothPasswords(input: Input, pending: Config)
    requires FirstComplaint(input, pending).None?
    ensures !(input.clearPassword && PasswordGiven(input))
  {
    hide PageBreaks, DurationsParse, PanelPortsDiffer, PasswordGiven;
  }

  lemma UnlockedPassword(env: set<Var>, active: Config, d: Config)
    ensures Preserve(env, active, d).smtpPassword == if PasswordLocked(env) then active.smtpPassword else d.smtpPassword
  {
  }

  lemma TypedPasswordIsRead(path: string, password: string, files: map<string, string>, prior: string)
    requires path != ""
    ensures Bare(path) && path in files && files[path] == password + "\n" ==>
              PasswordRead(path, files, prior) == TrimSpace(password)
    ensures PasswordRead("", files, prior) == prior
  {
    hide IsSpace;
    if Bare(path) {
      ReadsBackExactlyWhen(path);
      TrimmedIsKept(path);
    }
    LineBreakIsTrimmed(password);
  }

  lemma LineBreakIsTrimmed(s: string)
    ensures TrimSpace(s + "\n") == TrimSpace(s)
  {
    BreakOnTheRight(s);
  }

  lemma {:induction false} BreakOnTheRight(s: string)
    ensures TrimRight(TrimLeft(s + "\n")) == TrimRight(TrimLeft(s))
    decreases |s|
  {
    if s == "" || !IsSpace(s[0]) {
      assert (s + "\n")[..|s|] == s;
    } else {
      assert (s + "\n")[1..] == s[1..] + "\n";
      BreakOnTheRight(s[1..]);
    }
  }

  /**
   A password that was cleared is what the next save protects again, if the running configuration has one:
   until a restart it is what is pending, and the page need not name it.
   */
  lemma ClearedPasswordComesBack(lib: Libraries, env: set<Var>, active: Config, cleared: Config,
                                 files: map<string, string>, next: Input, c: Config)
    requires Printable(cleared, "") && !next.clearPassword && !PasswordGiven(next)
    requires var override := Some(RenderOverride(cleared, ""));
      IsCandidate(lib, c, next, active, Preserve(env, active, Overridden(active, override, files)))
    ensures c.smtpPassword == active.smtpPassword
  {
    hide RenderOverride, Overridden, TypedFrom, MethodsFrom, InOrder, Durational, Durations.Parse, TrimSpace, SchemeFor,
         PasswordRead;
    PasswordReadsBack(cleared, "", active, files);
    TypedPasswordIsRead("/", "", files, active.smtpPassword);
    UnlockedPassword(env, active, Overridden(active, Some(RenderOverride(cleared, "")), files));
  }

  lemma SameIsShownAlike(lib: Libraries, a: Config, b: Config)
    ensures SameButPassword(a, b) ==> Panel(lib, a) == Panel(lib, b)
  {
  }

  lemma CandidateIsPrintable(lib: Libraries, c: Config, input: Input, active: Config, pending: Config,
                             passwordFile: string)
    requires Validates(lib, c) && IsCandidate(lib, c, input, active, pending) && TypedIsOneLine(c)
    requires OneLine(lib.withPort(active.listenAddress, input.settings.httpPort)) && OneLine(passwordFile)
    requires OneLine(lib.withPort(active.httpsListenAddress, input.settings.httpsPort))
    ensures Printable(c, passwordFile)
  {
    hide MethodsFrom, TrimSpace, Lower, TrimDots, InOrder, Durational, Durations.Parse, HasOneOf, EndsWith, SchemeFor;
    AllowedAreWords(c.mfaMethods);
    assert OneLine("http") && OneLine("https");
  }

  lemma PasswordFileIsOneLine(given: seq<string>, dataDirectory: string, override: Option<string>, passwordFile: string)
    requires OneLine(dataDirectory) && |given| == 2 && OneLine(given[0]) && OneLine(given[1])
    requires passwordFile in ["", dataDirectory + "/smtp-password",
                              FirstNamed(TrimSpace(given[0]), NamedPasswordFile(override), TrimSpace(given[1]))]
    ensures OneLine(passwordFile)
  {
    hide Read, Split, TrimSpace, Name;
    TrimSpaceTrims(given[0]);
    TrimSpaceTrims(given[1]);
    assert '\n' !in "/smtp-password";
    if NamedPasswordFile(override) != "" {
      var lines := Split(override.value, '\n');
      forall i | 0 <= i < |lines| ensures OneLine(lines[i]) {
        SplitParts(override.value, '\n', i);
      }
      ValuesAreOneLine(lines, Name(SmtpPasswordFile));
      TrimSpaceTrims(Read(lines).value[Name(SmtpPasswordFile)]);
    }
  }

  lemma {:induction false} ValuesAreOneLine(lines: seq<string>, key: string)
    requires Read(lines).Ok? && key in Read(lines).value && forall i | 0 <= i < |lines| :: OneLine(lines[i])
    ensures OneLine(Read(lines).value[key])
  {
    hide ParseLine;
    if lines != [] {
      var n := |lines| - 1;
      ParsedIsOneLine(lines[n]);
      if key in Read(lines[..n]).value {
        ValuesAreOneLine(lines[..n], key);
      }
    }
  }

  lemma ParsedIsOneLine(raw: string)
    requires OneLine(raw)
    ensures ParseLine(raw).Setting? ==> OneLine(ParseLine(raw).value)
  {
    hide IsSpace;
    TrimSpaceTrims(raw);
    var line := TrimSpace(raw);
    if IndexOf(line, '=').Some? {
      var tail := line[IndexOf(line, '=').value + 1..];
      TrimSpaceTrims(tail);
      assert forall c | c in Unquote(TrimSpace(tail)) :: c in TrimSpace(tail);
    }
  }
}
