/**
 The page that shows the settings, and what saving it asks for: durations are shown so that they are read
 back, a page saved as it was shown asks for what it shows exactly when that is written as the page writes
 it, and what is accepted keeps the four ports and the two domains apart.
 */
module SettingsPage {
  import opened Arithmetic
  import opened Outcomes
  import opened Text
  import opened SettingsFile
  import opened Settings
  import Durations

  /***** Durations on the page *****/

  /** A number of minutes or hours, of either sign, is read back. */
  lemma WholeUnitsReadBack(n: int, unit: string)
    requires unit == "m" || unit == "h"
    ensures Durations.Parse(Itoa(n) + unit) == Some(n * Durations.UnitOf(unit).value)
    ensures TrimSpace(Itoa(n) + unit) == Itoa(n) + unit && Itoa(n) + unit != ""
  {
    hide Durations.Terms, Decimal, TrimSpace, Durations.UnitOf;
    var k: nat := if n < 0 then -n else n;
    var text := Decimal(k) + unit;
    UnitsOfTime(unit);
    Durations.WholeTerm(k, unit, "");
    Durations.TermsOfNothing();
    assert Decimal(k) + unit + "" == text;
    ValueOfDecimal(k);
    NoSpaceInDigits(Decimal(k));
    assert Itoa(n) + unit == if n < 0 then "-" + text else text;
    assert ("-" + text)[1..] == text;
    assert IsDigit(text[0]) && text[|text| - 1] == unit[0];
    TrimmedIsKept(text);
    TrimmedIsKept("-" + text);
  }

  lemma UnitsOfTime(unit: string)
    requires unit == "m" || unit == "h"
    ensures Durations.IsUnit(unit) && !IsSpace(unit[0]) && !IsDigit(unit[0])
    ensures Durations.UnitOf(unit).value == if unit == "m" then Durations.MINUTE else Durations.HOUR
  {
  }

  /** The life of a session is shown without loss: in hours, in minutes, or as it is printed in the file. */
  lemma SessionLifeReadsBack(d: int)
    ensures Durations.Parse(FormatCompact(d)) == Some(d)
    ensures TrimSpace(FormatCompact(d)) == FormatCompact(d) && FormatCompact(d) != ""
  {
    hide Durations.Parse, TrimSpace, Itoa, Durations.Show;
    if d % Durations.HOUR == 0 {
      WholeUnitsReadBack(d / Durations.HOUR, "h");
      UnitsOfTime("h");
    } else if d % Durations.MINUTE == 0 {
      WholeUnitsReadBack(d / Durations.MINUTE, "m");
      UnitsOfTime("m");
    } else {
      Durations.ParseOfShow(d);
      Durations.ShowIsPlain(d);
      TrimmedIsKept(Durations.Show(d));
    }
  }

  /** The life of a mailed code is shown in minutes: it is read back exactly when it is a whole number of them. */
  lemma CodeLifeReadsBackExactlyWhen(d: int)
    ensures Durations.Parse(FormatMinutes(d)) == Some(d) <==> d % Durations.MINUTE == 0
    ensures TrimSpace(FormatMinutes(d)) == FormatMinutes(d)
  {
    hide Durations.Parse, TrimSpace, Itoa;
    var n := if d < 0 then -(-d / Durations.MINUTE) else d / Durations.MINUTE;
    WholeUnitsReadBack(n, "m");
    UnitsOfTime("m");
  }

  /***** Saving what is shown *****/

  /** A domain as it is kept: nothing around it and no capitals. */
  predicate IsKeptDomain(s: string) {
    Trimmed(s) && (s != "" ==> s[0] != '.' && s[|s| - 1] != '.') && forall c | c in s :: !('A' <= c <= 'Z')
  }

  lemma KeptDomainStays(s: string)
    requires IsKeptDomain(s)
    ensures DomainOf(s) == s
  {
    TrimmedIsKept(s);
    assert TrimDots(s) == s;
    assert forall i | 0 <= i < |s| :: s[i] in s;
    assert Lower(s) == s;
  }

  lemma {:induction false} TrimDotsTrims(s: string)
    ensures var r := TrimDots(s);
      |r| <= |s| && (r != "" ==> r[0] != '.' && r[|r| - 1] != '.') && (|r| == |s| ==> r == s)
    decreases |s|
  {
    if s != "" && s[0] == '.' {
      TrimDotsTrims(s[1..]);
    } else if s != "" && s[|s| - 1] == '.' {
      TrimDotsTrims(s[..|s| - 1]);
    }
  }

  lemma StayingIsKept(s: string)
    requires DomainOf(s) == s
    ensures IsKeptDomain(s)
  {
    hide TrimSpace, TrimDots;
    TrimSpaceTrims(s);
    TrimDotsTrims(TrimSpace(s));
    assert TrimSpace(s) == s by { ShorterIsTrimmed(s); }
    assert TrimDots(s) == s;
    forall c | c in s ensures !('A' <= c <= 'Z') {
      var i :| 0 <= i < |s| && s[i] == c;
      assert Lower(s)[i] == LowerChar(c);
    }
  }

  lemma KeptDomainExactlyWhen(s: string)
    ensures DomainOf(s) == s <==> IsKeptDomain(s)
  {
    hide DomainOf, IsKeptDomain;
    if IsKeptDomain(s) {
      KeptDomainStays(s);
    }
    if DomainOf(s) == s {
      StayingIsKept(s);
    }
  }

  lemma ShorterIsTrimmed(s: string)
    requires |TrimSpace(s)| == |s|
    ensures TrimSpace(s) == s
  {
    TrimLeftStarts(s);
    TrimRightEnds(TrimLeft(s));
  }

  lemma TrimmedExactlyWhen(s: string)
    ensures TrimSpace(s) == s <==> Trimmed(s)
  {
    hide TrimSpace;
    TrimSpaceTrims(s);
    if Trimmed(s) {
      TrimmedIsKept(s);
    }
  }

  /** The settings are written as the page writes them, under addresses that go with the running ones. */
  predicate WrittenAsShown(lib: Libraries, c: Config, active: Config) {
    Trimmed(c.smtpHost) && Trimmed(c.smtpUsername) && Trimmed(c.smtpFrom) &&
    Trimmed(c.tlsCertFile) && Trimmed(c.tlsKeyFile) && Trimmed(c.accessTlsCertFile) && Trimmed(c.accessTlsKeyFile) &&
    IsKeptDomain(c.panelDomain) && IsKeptDomain(c.accessDomain) &&
    c.emailCodeTTL % Durations.MINUTE == 0 && InOrder(c.mfaMethods) &&
    c.smtpTLSMode == TLSModeForPort(c.smtpPort) &&
    c.listenAddress == lib.withPort(active.listenAddress, lib.portOf(c.listenAddress)) &&
    c.httpsListenAddress == lib.withPort(active.httpsListenAddress, lib.portOf(c.httpsListenAddress)) &&
    (c.accessDomain == "" || c.accessScheme == SchemeFor(c.accessDomain))
  }

  lemma AllowedNameThemselves(methods: seq<string>)
    requires MethodsAllowed(methods)
    ensures MethodsFrom(methods, methods)
  {
    TrimmedIsKept("totp");
    TrimmedIsKept("email");
    assert Lower("totp") == "totp" && Lower("email") == "email";
    assert forall i | 0 <= i < |methods| :: Lower(TrimSpace(methods[i])) == methods[i];
    forall m ensures m in methods <==> MethodNamed(methods, m) {
      if m in methods {
        var i :| 0 <= i < |methods| && methods[i] == m;
        assert Lower(TrimSpace(methods[i])) == m;
      }
    }
  }

  lemma ShownTextsAreTyped(lib: Libraries, c: Config)
    ensures TypedFrom(c, Panel(lib, c)) <==>
            Trimmed(c.smtpHost) && Trimmed(c.smtpUsername) && Trimmed(c.smtpFrom) &&
            Trimmed(c.tlsCertFile) && Trimmed(c.tlsKeyFile) && Trimmed(c.accessTlsCertFile) &&
            Trimmed(c.accessTlsKeyFile) && IsKeptDomain(c.panelDomain) && IsKeptDomain(c.accessDomain) &&
            c.smtpTLSMode == TLSModeForPort(c.smtpPort)
  {
    hide TrimSpace, Trimmed, DomainOf, IsKeptDomain, FormatMinutes, FormatCompact;
    TrimmedExactlyWhen(c.smtpHost);
    TrimmedExactlyWhen(c.smtpUsername);
    TrimmedExactlyWhen(c.smtpFrom);
    TrimmedExactlyWhen(c.tlsCertFile);
    TrimmedExactlyWhen(c.tlsKeyFile);
    TrimmedExactlyWhen(c.accessTlsCertFile);
    TrimmedExactlyWhen(c.accessTlsKeyFile);
    KeptDomainExactlyWhen(c.panelDomain);
    KeptDomainExactlyWhen(c.accessDomain);
  }

  lemma NoPasswordTyped(s: PanelSettings)
    ensures !PasswordGiven(Input(s, "", false))
  {
  }

  lemma ShownChoicesAreChosen(lib: Libraries, c: Config, active: Config)
    ensures ChosenFrom(lib, c, Input(Panel(lib, c), "", false), active, c) <==>
            c.emailCodeTTL % Durations.MINUTE == 0 &&
            c.listenAddress == lib.withPort(active.listenAddress, lib.portOf(c.listenAddress)) &&
            c.httpsListenAddress == lib.withPort(active.httpsListenAddress, lib.portOf(c.httpsListenAddress)) &&
            (c.accessDomain == "" || c.accessScheme == SchemeFor(c.accessDomain))
  {
    hide TrimSpace, Durations.Parse, FormatMinutes, FormatCompact, SchemeFor, PasswordGiven;
    CodeLifeReadsBackExactlyWhen(c.emailCodeTTL);
    SessionLifeReadsBack(c.authSessionTTL);
    SessionLifeReadsBack(c.authSessionIdleTTL);
    NoPasswordTyped(Panel(lib, c));
  }

  /**
   The page shows what is pending; saved unchanged it asks for exactly that, if and only if it is written as the
   page writes it.
   */
  lemma ShownPageAsksForItselfExactlyWhen(lib: Libraries, c: Config, active: Config)
    requires MethodsAllowed(c.mfaMethods)
    ensures IsCandidate(lib, c, Input(Panel(lib, c), "", false), active, c) <==> WrittenAsShown(lib, c, active)
  {
    hide TypedFrom, ChosenFrom, MethodsFrom, InOrder, Trimmed, IsKeptDomain, FormatMinutes, FormatCompact;
    ShownTextsAreTyped(lib, c);
    ShownChoicesAreChosen(lib, c, active);
    AllowedNameThemselves(c.mfaMethods);
  }

  /** In particular, what was saved once and is shown again does not change when it is saved again. */
  lemma SavedAgainIsTheSame(lib: Libraries, c: Config, input: Input, active: Config, pending: Config, again: Config)
    requires IsCandidate(lib, c, input, active, pending) && MethodsAllowed(c.mfaMethods)
    requires WrittenAsShown(lib, c, active)
    requires IsCandidate(lib, again, Input(Panel(lib, c), "", false), active, c)
    ensures again == c
  {
    hide IsCandidate, WrittenAsShown;
    ShownPageAsksForItselfExactlyWhen(lib, c, active);
    CandidateIsUnique(lib, again, c, Input(Panel(lib, c), "", false), active, c);
  }

  /***** What is accepted *****/

  /** The library that builds an address puts the port where the other finds it. */
  ghost predicate PortsAreFound(lib: Libraries) {
    forall address, port :: lib.portOf(lib.withPort(address, port)) == port
  }

  /** Of an accepted page the panel's two ports and, unless they are shared, the access ports are all different. */
  lemma AcceptedPortsAreApart(lib: Libraries, c: Config, input: Input, active: Config, pending: Config)
    requires IsCandidate(lib, c, input, active, pending) && FirstComplaint(input, pending).None? && Validates(lib, c)
    requires PortsAreFound(lib)
    ensures var s := input.settings;
      lib.portOf(c.listenAddress) == s.httpPort && lib.portOf(c.httpsListenAddress) == s.httpsPort &&
      1 <= s.httpPort <= 65535 && 1 <= s.httpsPort <= 65535 && s.httpPort != s.httpsPort &&
      (Reuses(c) || (c.accessHTTPPort != 0 && c.accessHTTPSPort != 0 && c.accessHTTPPort != c.accessHTTPSPort &&
                     c.accessHTTPPort != s.httpPort && c.accessHTTPPort != s.httpsPort &&
                     c.accessHTTPSPort != s.httpPort && c.accessHTTPSPort != s.httpsPort))
  {
    hide TypedFrom, MethodsFrom, InOrder, PageBreaks, DurationsParse, Durational, Durations.Parse, TrimSpace, SchemeFor,
         HasOneOf, EndsWith, MethodsAllowed, PasswordGiven;
    var panel := {lib.portOf(c.listenAddress), lib.portOf(c.httpsListenAddress)};
    assert lib.portOf(c.listenAddress) in panel && lib.portOf(c.httpsListenAddress) in panel;
  }

  /** The panel is served neither under the access domain nor under any host that a session can be given. */
  lemma AcceptedPanelIsNoSessionHost(lib: Libraries, c: Config, name: string)
    requires Validates(lib, c) && c.panelDomain != "" && c.accessDomain != ""
    ensures c.panelDomain != c.accessDomain && c.panelDomain != name + "." + c.accessDomain
  {
    hide MethodsAllowed, HasOneOf;
    var host := name + "." + c.accessDomain;
    assert host[|name|..] == "." + c.accessDomain;
  }

  /** Second factors are only switched on with a method, and with a mail server and sender to send codes with. */
  lemma AcceptedFactorsCanBeUsed(lib: Libraries, c: Config)
    requires Validates(lib, c) && c.mfaEnabled
    ensures ("totp" in c.mfaMethods || "email" in c.mfaMethods) && c.smtpHost != "" && c.smtpFrom != ""
  {
    hide HasOneOf, EndsWith;
    assert c.mfaMethods[0] in c.mfaMethods;
  }

  /** A host of this domain is on the machine itself. */
  ghost predicate IsLocal(domain: string) {
    domain == "localhost" ||
    exists host: string :: domain == host + ".localhost" || domain == host + ".127.0.0.1.nip.io"
  }

  lemma EndsExactlyWhen(s: string, end: string)
    ensures EndsWith(s, end) <==> exists front: string :: s == front + end
  {
    if EndsWith(s, end) {
      assert s == s[..|s| - |end|] + end;
    }
    if front: string :| s == front + end {
      assert s[|front|..] == end;
    }
  }

  /** Sessions are reached without TLS exactly under a domain of the machine itself. */
  lemma SchemeFollowsDomain(lib: Libraries, c: Config, input: Input, active: Config, pending: Config)
    requires IsCandidate(lib, c, input, active, pending) && c.accessDomain != ""
    ensures c.accessScheme == if IsLocal(c.accessDomain) then "http" else "https"
  {
    hide TypedFrom, MethodsFrom, InOrder, Durational, Durations.Parse, TrimSpace, PasswordGiven, EndsWith;
    EndsExactlyWhen(c.accessDomain, ".localhost");
    EndsExactlyWhen(c.accessDomain, ".127.0.0.1.nip.io");
    var domain := c.accessDomain;
    if host: string :| domain == host + ".localhost" || domain == host + ".127.0.0.1.nip.io" {
      assert IsLocalDomain(domain);
    }
    if EndsWith(domain, ".localhost") {
      var front: string :| domain == front + ".localhost";
      assert IsLocal(domain);
    }
    if EndsWith(domain, ".127.0.0.1.nip.io") {
      var front: string :| domain == front + ".127.0.0.1.nip.io";
      assert IsLocal(domain);
    }
  }

  /** Domains are bare host names, and certificates come with their keys; one for sessions needs one for the panel. */
  lemma AcceptedHostsAndCertificates(lib: Libraries, c: Config)
    requires Validates(lib, c)
    ensures forall x | x in c.accessDomain || x in c.panelDomain :: x != '/' && x != ':' && x != ' '
    ensures (c.tlsCertFile == "" <==> c.tlsKeyFile == "") && (c.accessTlsCertFile == "" <==> c.accessTlsKeyFile == "")
    ensures c.accessTlsCertFile != "" ==> c.tlsCertFile != "" && c.accessDomain != ""
  {
    hide EndsWith, MethodsAllowed;
    assert "/: " == ['/'] + [':'] + [' '];
  }

  /***** When a restart is needed *****/

  lemma SameMethodsSameKey(a: seq<string>, b: seq<string>)
    requires MethodsAllowed(a) && MethodsAllowed(b)
    ensures MethodsKey(a) == MethodsKey(b) <==> forall m :: m in a <==> m in b
  {
    hide Join, Split;
    SortedKeeps(a);
    SortedKeeps(b);
    SortedIsInOrder(a);
    SortedIsInOrder(b);
    if forall m :: m in a <==> m in b {
      InOrderIsUnique(Sorted(a), Sorted(b));
    }
    if MethodsKey(a) == MethodsKey(b) {
      SortedAreAllowed(a);
      SortedAreAllowed(b);
      JoinedAreSame(Sorted(a), Sorted(b));
    }
  }

  lemma SortedAreAllowed(methods: seq<string>)
    requires MethodsAllowed(methods)
    ensures forall i | 0 <= i < |Sorted(methods)| :: Sorted(methods)[i] == "totp" || Sorted(methods)[i] == "email"
  {
    SortedKeeps(methods);
    forall i | 0 <= i < |Sorted(methods)| ensures Sorted(methods)[i] == "totp" || Sorted(methods)[i] == "email" {
      assert Sorted(methods)[i] in methods;
    }
  }

  lemma JoinedAreSame(a: seq<string>, b: seq<string>)
    requires Join(a, ',') == Join(b, ',')
    requires forall i | 0 <= i < |a| :: a[i] == "totp" || a[i] == "email"
    requires forall i | 0 <= i < |b| :: b[i] == "totp" || b[i] == "email"
    ensures a == b
  {
    hide Split;
    NothingIsJoined();
    if a != [] {
      SplitOfJoin(a, ',');
    }
    if b != [] {
      SplitOfJoin(b, ',');
    }
  }

  lemma NothingIsJoined()
    ensures Join([], ',') == "" && Split("", ',') == [""]
  {
  }

  /** The page asks for a restart unless what is pending is what is running, whatever the order of the methods. */
  lemma RestartIsNeededExactlyWhen(active: Config, pending: Config)
    requires MethodsAllowed(active.mfaMethods) && MethodsAllowed(pending.mfaMethods)
    requires active.smtpTLSMode == TLSModeForPort(active.smtpPort)
    requires pending.smtpTLSMode == TLSModeForPort(pending.smtpPort)
    ensures SameEditable(active, pending) <==>
            pending == active.(mfaMethods := pending.mfaMethods) &&
            forall m :: m in active.mfaMethods <==> m in pending.mfaMethods
  {
    hide MethodsKey, MethodsAllowed;
    SameMethodsSameKey(active.mfaMethods, pending.mfaMethods);
  }
}
