/**
 Reading the destination of a signature off the client's command line
 (pageant/client_windows.go:173-323). Go strings are sequences of bytes, written here as
 characters; what the code takes from Go's libraries is a parameter.
 */
module ClientTarget {
  import opened Bytes

  datatype App = Ssh | Putty | Plink | OtherApp

  /** A parsed ssh:// URL, as far as it is used. */
  datatype Url = Url(host: string, path: string, query: string, fragment: string,
                     user: Option<string>, password: bool, port: string)

  /**
   `plain`: no space, control or format character; `lower`: strings.ToLower; `fields`: the
   FieldsFunc split at '=' and spaces; `isIP`: net.ParseIP succeeds; `url`: url.Parse.
   */
  datatype Library = Library(plain: string -> bool, lower: string -> string, fields: string -> seq<string>,
                             isIP: string -> bool, url: string -> Option<Url>)

  datatype Target = Target(user: string, host: string, port: nat, session: string, inferred: bool)

  const NOTHING := Target("", "", 0, "", false)
  const START := Target("", "", 0, "", true)

  /** Option names in one string, each between spaces, as the code keeps them. */
  function Listing(names: seq<string>): string {
    if names == [] then " " else " " + names[0] + Listing(names[1..])
  }

  /** The options without a value. */
  function FlagNames(app: App): seq<string> {
    if app.Ssh? then
      ["-4", "-6", "-A", "-a", "-C", "-f", "-G", "-g", "-K", "-k", "-M", "-N", "-n", "-q", "-s", "-T", "-t",
       "-V", "-v", "-X", "-x", "-Y", "-y"]
    else
      ["-ssh", "-2", "-4", "-6", "-batch", "-agent", "-noagent", "-A", "-a", "-C", "-N", "-T", "-t", "-v",
       "-x", "-X", "-share", "-noshare", "-no-antispoof"]
  }

  function Flags(app: App): string {
    Listing(FlagNames(app))
  }

  /** The options with a value. */
  function ValueNames(app: App): seq<string> {
    if app.Ssh? then
      ["-B", "-b", "-c", "-D", "-E", "-e", "-F", "-I", "-i", "-J", "-L", "-l", "-m", "-O", "-o", "-P", "-p",
       "-Q", "-R", "-S", "-W", "-w"]
    else
      ["-l", "-P", "-load", "-pw", "-pwfile", "-i", "-m", "-L", "-R", "-D", "-nc", "-proxycmd", "-hostkey",
       "-loghost", "-sercfg", "-sessionlog", "-sshlog", "-sshrawlog"]
  }

  function ValueFlags(app: App): string {
    Listing(ValueNames(app))
  }

  // ----- the filters -----

  predicate Contains(hay: string, needle: string) {
    needle <= hay || (hay != "" && Contains(hay[1..], needle))
  }

  predicate ContainsAny(s: string, chars: string) {
    exists i :: 0 <= i < |s| && s[i] in chars
  }

  predicate SafeField(lib: Library, value: string) {
    value != "" && |value| <= 253 && lib.plain(value)
  }

  function SafeTargetField(lib: Library, value: string): string {
    if SafeField(lib, value) then value else ""
  }

  /** What precedes the first occurrence of c. */
  function Before(s: string, c: char): string {
    if s == "" || s[0] == c then "" else [s[0]] + Before(s[1..], c)
  }

  predicate HostOk(lib: Library, host: string) {
    && SafeField(lib, host)
    && !ContainsAny(host, "/\\@\"'") && host[0] != '-'
    && (':' in host ==> lib.isIP(Before(host, '%')))
  }

  function SafeHost(lib: Library, host: string): string {
    if HostOk(lib, host) then host else ""
  }

  function DecimalValue(s: string): nat {
    if s == "" then 0
    else DecimalValue(s[..|s| - 1]) * 10 + (if '0' <= s[|s| - 1] <= '9' then s[|s| - 1] as nat - '0' as nat else 0)
  }

  /** strconv.ParseUint(value, 10, 16), with zero rejected too. */
  function ParsePort(value: string): (p: Option<nat>)
    ensures p.Some? ==> 1 <= p.value <= 65535
  {
    if value != "" && (forall i :: 0 <= i < |value| ==> '0' <= value[i] <= '9') && 1 <= DecimalValue(value) <= 65535
    then Some(DecimalValue(value)) else None
  }

  function LastAt(s: string): (at: int)
    ensures -1 <= at < |s|
    ensures at >= 0 ==> s[at] == '@'
    ensures forall i :: at < i < |s| ==> s[i] != '@'
  {
    if s == "" then -1 else if s[|s| - 1] == '@' then |s| - 1 else LastAt(s[..|s| - 1])
  }

  /** strings.Trim(s, "[]"). */
  function TrimBrackets(s: string): string
    decreases |s|
  {
    if s != "" && s[0] in "[]" then TrimBrackets(s[1..])
    else if s != "" && s[|s| - 1] in "[]" then TrimBrackets(s[..|s| - 1])
    else s
  }

  // ----- the destination -----

  /** A name found for the user or the host counts only when none is known yet. */
  function TakeUser(lib: Library, t: Target, user: string): Target {
    if t.user == "" then t.(user := SafeTargetField(lib, user)) else t
  }

  function TakeHost(lib: Library, t: Target, host: string): Target {
    if t.host == "" then t.(host := SafeHost(lib, host)) else t
  }

  /** parseDestination for an ssh:// URL: nothing from a URL that carries more than a login. */
  function UrlDestination(lib: Library, t: Target, u: Url): Target {
    if u.host == "" || (u.path != "" && u.path != "/") || u.query != "" || u.fragment != "" then t
    else if u.user.Some? && u.password then t
    else
      var t1 := if u.user.Some? then TakeUser(lib, t, u.user.value) else t;
      var t2 := TakeHost(lib, t1, u.host);
      if u.port == "" then t2
      else if ParsePort(u.port).None? then t2.(host := "")
      else if t2.port == 0 then t2.(port := ParsePort(u.port).value)
      else t2
  }

  function Destination(lib: Library, t: Target, value: string): Target {
    if "ssh://" <= lib.lower(value) then
      if lib.url(value).None? then t else UrlDestination(lib, t, lib.url(value).value)
    else
      var at := LastAt(value);
      TakeHost(lib, if at >= 0 then TakeUser(lib, t, value[..at]) else t, TrimBrackets(value[at + 1..]))
  }

  /** An ssh:// URL that is taken for a destination, but whose port is not a port number. */
  predicate BadPort(lib: Library, value: string) {
    "ssh://" <= lib.lower(value) && lib.url(value).Some? && BadUrlPort(lib.url(value).value)
  }

  predicate BadUrlPort(u: Url) {
    && u.host != "" && (u.path == "" || u.path == "/") && u.query == "" && u.fragment == ""
    && !(u.user.Some? && u.password)
    && u.port != "" && ParsePort(u.port).None?
  }

  lemma TakingKeeps(lib: Library, t: Target, value: string)
    ensures var after := TakeUser(lib, t, value);
            after == t.(user := after.user) && (t.user != "" ==> after == t)
    ensures var after := TakeHost(lib, t, value);
            after == t.(host := after.host) && (t.host != "" ==> after == t)
  {
  }

  /** A known user and port are kept, and a known host unless the port is bad; then no host is left. */
  predicate Keeps(t: Target, after: Target, bad: bool) {
    && (t.user != "" ==> after.user == t.user)
    && (t.port != 0 ==> after.port == t.port)
    && (t.host != "" ==> (after.host == t.host <==> !bad))
    && (bad ==> after.host == "")
    && after.session == t.session && after.inferred == t.inferred
  }

  lemma UrlKeeps(lib: Library, t: Target, u: Url)
    ensures Keeps(t, UrlDestination(lib, t, u), BadUrlPort(u))
  {
    var t1 := if u.user.Some? then TakeUser(lib, t, u.user.value) else t;
    if u.user.Some? {
      TakingKeeps(lib, t, u.user.value);
    }
    TakingKeeps(lib, t1, u.host);
  }

  lemma LoginKeeps(lib: Library, t: Target, named: bool, user: string, host: string)
    ensures Keeps(t, TakeHost(lib, if named then TakeUser(lib, t, user) else t, host), false)
  {
    TakingKeeps(lib, t, user);
    TakingKeeps(lib, if named then TakeUser(lib, t, user) else t, host);
  }

  lemma PlainKeeps(lib: Library, t: Target, value: string)
    requires !("ssh://" <= lib.lower(value))
    ensures Keeps(t, Destination(lib, t, value), false)
  {
    var at := LastAt(value);
    var user := if at >= 0 then value[..at] else "";
    var host := TrimBrackets(value[at + 1..]);
    LoginKeeps(lib, t, at >= 0, user, host);
    assert Destination(lib, t, value) == TakeHost(lib, if at >= 0 then TakeUser(lib, t, user) else t, host);
  }

  /**
   What is known already is kept: the user and the port always, the host exactly when the
   destination is not a URL with a bad port; such a URL clears it.
   */
  lemma DestinationKeeps(lib: Library, t: Target, value: string)
    ensures Keeps(t, Destination(lib, t, value), BadPort(lib, value))
  {
    if !("ssh://" <= lib.lower(value)) {
      PlainKeeps(lib, t, value);
    } else if lib.url(value).Some? {
      UrlKeeps(lib, t, lib.url(value).value);
    }
  }

  /** A known host that is lost: ssh://h:0 has no valid port. */
  lemma KnownHostForgotten()
    ensures var lib := Library(_ => true, s => s, _ => [], _ => false,
                               _ => Some(Url("h", "", "", "", None, false, "0")));
            Destination(lib, START.(host := "known"), "ssh://h:0").host == ""
  {
    var lib := Library(_ => true, s => s, _ => [], _ => false,
                       _ => Some(Url("h", "", "", "", None, false, "0")));
    var u := Url("h", "", "", "", None, false, "0");
    assert DecimalValue("0") == 0;
    assert ParsePort("0").None?;
    assert BadUrlPort(u);
    UrlKeeps(lib, START.(host := "known"), u);
    assert "ssh://" <= lib.lower("ssh://h:0");
    assert lib.url("ssh://h:0") == Some(u);
  }

  lemma TrimsNothing(s: string)
    requires s != "" ==> s[0] !in "[]" && s[|s| - 1] !in "[]"
    ensures TrimBrackets(s) == s
  {
  }

  /** A plain login is read back in full: the user before the last '@', the host behind it. */
  lemma LoginIsRead(lib: Library, user: string, host: string)
    requires SafeField(lib, user) && HostOk(lib, host)
    requires host[0] !in "[]" && host[|host| - 1] !in "[]"
    requires !("ssh://" <= lib.lower(user + "@" + host))
    ensures Destination(lib, START, user + "@" + host) == START.(user := user, host := host)
  {
    var value := user + "@" + host;
    assert value[|user|] == '@';
    assert forall i :: |user| < i < |value| ==> value[i] == host[i - |user| - 1];
    assert forall i :: 0 <= i < |host| ==> host[i] != '@';
    assert LastAt(value) == |user|;
    assert value[..|user|] == user && value[|user| + 1..] == host;
    TrimsNothing(host);
  }

  // ----- one argument -----

  /** What the scanner makes of an argument that starts with a dash. */
  datatype OptionKind = Skip | Unknown | Takes(name: string, attached: string)

  predicate AllV(s: string) {
    forall i :: 0 <= i < |s| ==> s[i] == 'v'
  }

  /** The look-up of one argument in the two strings of names. */
  function LookUp(ssh: bool, flags: string, values: string, arg: string): OptionKind {
    var split := ssh && |arg| > 2 && (arg[1] == 'l' || arg[1] == 'p');
    var option := if split then arg[..2] else arg;
    var attached := if split then arg[2..] else "";
    if ssh && |arg| > 2 && AllV(arg[1..]) then Skip
    else if Contains(flags, " " + option + " ") then Skip
    else if !Contains(values, " " + option + " ") then Unknown
    else Takes(option, attached)
  }

  function Classify(app: App, arg: string): OptionKind {
    LookUp(app.Ssh?, Flags(app), ValueFlags(app), arg)
  }

  /** The options whose value the scanner looks at. */
  predicate Interpreted(app: App, name: string) {
    name == "-l" || name == (if app.Ssh? then "-p" else "-P") || name == (if app.Ssh? then "-o" else "-load")
  }

  function SshOption(lib: Library, t: Target, parts: seq<string>): Option<Target> {
    if |parts| != 2 then Some(t)
    else if lib.lower(parts[0]) == "user" then Some(t.(user := SafeTargetField(lib, parts[1])))
    else if lib.lower(parts[0]) == "hostname" then Some(t.(host := SafeHost(lib, parts[1])))
    else if lib.lower(parts[0]) == "port" then
      if ParsePort(parts[1]).None? then None else Some(t.(port := ParsePort(parts[1]).value))
    else Some(t)
  }

  /** The target after an option with its value, None when the value spoils everything. */
  function Apply(lib: Library, app: App, t: Target, name: string, value: string): Option<Target> {
    if name == "-l" then Some(t.(user := SafeTargetField(lib, value)))
    else if name == (if app.Ssh? then "-p" else "-P") then
      if ParsePort(value).None? then None else Some(t.(port := ParsePort(value).value))
    else if !app.Ssh? && name == "-load" then Some(t.(session := value))
    else if app.Ssh? && name == "-o" then SshOption(lib, t, lib.fields(value))
    else Some(t)
  }

  // ----- the scan -----

  /** The scan of the remaining arguments. */
  function Scan(lib: Library, app: App, classify: string -> OptionKind, args: seq<string>, t: Target,
                hasDestination: bool): Target {
    if args == [] then t
    else
      var arg := args[0];
      if arg == "--" then if |args| > 1 then Destination(lib, t, args[1]) else t
      else if arg == "" || arg[0] != '-' then
        if hasDestination then NOTHING
        else if app.Putty? then Scan(lib, app, classify, args[1..], Destination(lib, t, arg), true)
        else Destination(lib, t, arg)
      else
        match classify(arg)
        case Skip => Scan(lib, app, classify, args[1..], t, hasDestination)
        case Unknown => NOTHING
        case Takes(name, attached) =>
          if attached == "" && |args| == 1 then NOTHING
          else
            var value := if attached != "" then attached else args[1];
            var rest := if attached != "" then args[1..] else args[2..];
            var next := Apply(lib, app, t, name, value);
            if next.None? then NOTHING else Scan(lib, app, classify, rest, next.value, hasDestination)
  }

  function Classifier(app: App): string -> OptionKind {
    arg => Classify(app, arg)
  }

  function Parsed(lib: Library, app: App, args: seq<string>): Target {
    if app.OtherApp? then NOTHING else Scan(lib, app, Classifier(app), args, START, false)
  }

  /** The target that the parsers fill in. */
  class Cell {
    var target: Target

    constructor ()
      ensures target == START
    {
      target := START;
    }
  }

  /** parseDestination: a known user or port is kept, a known host unless the URL's port is bad. */
  method ParseDestination(lib: Library, cell: Cell, value: string)
    modifies cell
    ensures cell.target == Destination(lib, old(cell.target), value)
    ensures old(cell.target.user) != "" ==> cell.target.user == old(cell.target.user)
    ensures old(cell.target.port) != 0 ==> cell.target.port == old(cell.target.port)
    ensures old(cell.target.host) != "" ==>
              (cell.target.host == old(cell.target.host) <==> !BadPort(lib, value))
  {
    DestinationKeeps(lib, cell.target, value);
    if "ssh://" <= lib.lower(value) {
      var parsed := lib.url(value);
      if parsed.None? {
        return;
      }
      var u := parsed.value;
      if u.host == "" || (u.path != "" && u.path != "/") || u.query != "" || u.fragment != "" {
        return;
      }
      if u.user.Some? {
        if u.password {
          return;
        }
        if cell.target.user == "" {
          cell.target := cell.target.(user := SafeTargetField(lib, u.user.value));
        }
      }
      if cell.target.host == "" {
        cell.target := cell.target.(host := SafeHost(lib, u.host));
      }
      if u.port != "" {
        var port := ParsePort(u.port);
        if port.None? {
          cell.target := cell.target.(host := "");
          return;
        }
        if cell.target.port == 0 {
          cell.target := cell.target.(port := port.value);
        }
      }
      return;
    }
    var rest := value;
    var at := LastAt(value);
    if at >= 0 {
      if cell.target.user == "" {
        cell.target := cell.target.(user := SafeTargetField(lib, value[..at]));
      }
      rest := value[at + 1..];
    }
    if cell.target.host == "" {
      cell.target := cell.target.(host := SafeHost(lib, TrimBrackets(rest)));
    }
  }

  /** parseClientTarget. */
  method ParseClientTarget(lib: Library, app: App, args: seq<string>) returns (target: Target)
    ensures target == Parsed(lib, app, args)
  {
    if app.OtherApp? {
      return NOTHING;
    }
    target := ScanArguments(lib, app, Classifier(app), args);
  }

  /** An option with a value, attached or in the next argument (client_windows.go:224-258). */
  method ReadOption(lib: Library, app: App, cell: Cell, args: seq<string>, i: nat, name: string, attached: string)
    returns (next: nat, ok: bool)
    requires i < |args|
    modifies cell
    ensures ok ==> next == (if attached != "" then i + 1 else i + 2) && i < next <= |args|
    ensures ok <==> (attached != "" || i + 1 < |args|) &&
                    Apply(lib, app, old(cell.target), name, if attached != "" then attached else args[i + 1]).Some?
    ensures ok ==> Apply(lib, app, old(cell.target), name, if attached != "" then attached else args[i + 1]) ==
                   Some(cell.target)
  {
    next := i;
    var value := attached;
    if value == "" {
      next := next + 1;
      if next >= |args| {
        return next, false;
      }
      value := args[next];
    }
    var after := Apply(lib, app, cell.target, name, value);
    if after.None? {
      return next, false;
    }
    cell.target := after.value;
    next := next + 1;
    ok := true;
  }

  /** The loop of parseClientTarget. */
  method ScanArguments(lib: Library, app: App, classify: string -> OptionKind, args: seq<string>)
    returns (target: Target)
    ensures target == Scan(lib, app, classify, args, START, false)
  {
    var cell := new Cell();
    var hasDestination := false;
    var i := 0;
    while i < |args|
      invariant i <= |args|
      invariant Scan(lib, app, classify, args[i..], cell.target, hasDestination) ==
                Scan(lib, app, classify, args, START, false)
    {
      var arg := args[i];
      assert args[i..][1..] == args[i + 1..];
      if arg == "--" {
        if i + 1 < |args| {
          ParseDestination(lib, cell, args[i + 1]);
        }
        return cell.target;
      }
      if arg == "" || arg[0] != '-' {
        if hasDestination {
          return NOTHING;
        }
        ParseDestination(lib, cell, arg);
        hasDestination := true;
        if app.Putty? {
          i := i + 1;
          continue;
        }
        return cell.target;
      }
      var option := classify(arg);
      if option.Skip? {
        i := i + 1;
        continue;
      }
      if option.Unknown? {
        return NOTHING;
      }
      assert i + 1 < |args| ==> args[i..][1] == args[i + 1] && args[i..][2..] == args[i + 2..];
      var ok;
      i, ok := ReadOption(lib, app, cell, args, i, option.name, option.attached);
      if !ok {
        return NOTHING;
      }
    }
    target := cell.target;
  }

  // ----- what the scan depends on -----

  /**
   Two argument lists that a reader of `app` cannot tell apart: they differ only in values of
   options that are not interpreted, and behind the point where the scan ends.
   */
  predicate Indistinguishable(app: App, classify: string -> OptionKind, a: seq<string>, b: seq<string>) {
    if a == [] || b == [] then a == b
    else
      a[0] == b[0] &&
      var arg := a[0];
      if arg == "--" then (|a| > 1 <==> |b| > 1) && (|a| > 1 ==> a[1] == b[1])
      else if arg == "" || arg[0] != '-' then app.Putty? ==> Indistinguishable(app, classify, a[1..], b[1..])
      else
        match classify(arg)
        case Skip => Indistinguishable(app, classify, a[1..], b[1..])
        case Unknown => true
        case Takes(name, attached) =>
          if attached != "" then Indistinguishable(app, classify, a[1..], b[1..])
          else if |a| == 1 || |b| == 1 then |a| == |b|
          else (Interpreted(app, name) ==> a[1] == b[1]) && Indistinguishable(app, classify, a[2..], b[2..])
  }

  /** The target reveals nothing of uninterpreted values, nor of what follows the destination. */
  lemma {:induction false} ScanIgnoresOthers(
    lib: Library, app: App, classify: string -> OptionKind, a: seq<string>, b: seq<string>, t: Target,
    hasDestination: bool)
    requires Indistinguishable(app, classify, a, b)
    ensures Scan(lib, app, classify, a, t, hasDestination) == Scan(lib, app, classify, b, t, hasDestination)
    decreases |a|
  {
    if a != [] && a[0] != "--" {
      var arg := a[0];
      if arg == "" || arg[0] != '-' {
        if app.Putty? {
          ScanIgnoresOthers(lib, app, classify, a[1..], b[1..], Destination(lib, t, arg), true);
        }
      } else {
        match classify(arg)
        case Skip => ScanIgnoresOthers(lib, app, classify, a[1..], b[1..], t, hasDestination);
        case Unknown =>
        case Takes(name, attached) =>
          if attached != "" {
            var next := Apply(lib, app, t, name, attached);
            if next.Some? {
              ScanIgnoresOthers(lib, app, classify, a[1..], b[1..], next.value, hasDestination);
            }
          } else if |a| > 1 && |b| > 1 {
            var next := Apply(lib, app, t, name, a[1]);
            if next.Some? {
              ScanIgnoresOthers(lib, app, classify, a[2..], b[2..], next.value, hasDestination);
            }
          }
      }
    }
  }

  // ----- what the scan can report -----

  predicate SafeTarget(lib: Library, t: Target) {
    && (t.user == "" || SafeField(lib, t.user))
    && (t.host == "" || HostOk(lib, t.host))
    && t.port <= 65535
  }

  lemma TakingIsSafe(lib: Library, t: Target, value: string)
    requires SafeTarget(lib, t)
    ensures SafeTarget(lib, TakeUser(lib, t, value)) && SafeTarget(lib, TakeHost(lib, t, value))
  {
  }

  lemma UrlIsSafe(lib: Library, t: Target, u: Url)
    requires SafeTarget(lib, t)
    ensures SafeTarget(lib, UrlDestination(lib, t, u))
  {
    if u.user.Some? {
      TakingIsSafe(lib, t, u.user.value);
      TakingIsSafe(lib, TakeUser(lib, t, u.user.value), u.host);
    } else {
      TakingIsSafe(lib, t, u.host);
    }
  }

  lemma DestinationIsSafe(lib: Library, t: Target, value: string)
    requires SafeTarget(lib, t)
    ensures SafeTarget(lib, Destination(lib, t, value))
  {
    if "ssh://" <= lib.lower(value) {
      if lib.url(value).Some? {
        UrlIsSafe(lib, t, lib.url(value).value);
      }
    } else {
      var at := LastAt(value);
      var t1 := if at >= 0 then TakeUser(lib, t, value[..at]) else t;
      assert SafeTarget(lib, t1) by {
        if at >= 0 {
          TakingIsSafe(lib, t, value[..at]);
        }
      }
      TakingIsSafe(lib, t1, TrimBrackets(value[at + 1..]));
    }
  }

  lemma ApplyIsSafe(lib: Library, app: App, t: Target, name: string, value: string)
    requires SafeTarget(lib, t)
    ensures Apply(lib, app, t, name, value).Some? ==> SafeTarget(lib, Apply(lib, app, t, name, value).value)
  {
  }

  /** Whatever the arguments, a reported user, host or port has passed its filter. */
  lemma {:induction false} ScanIsSafe(
    lib: Library, app: App, classify: string -> OptionKind, args: seq<string>, t: Target, hasDestination: bool)
    requires SafeTarget(lib, t)
    ensures SafeTarget(lib, Scan(lib, app, classify, args, t, hasDestination))
    decreases |args|
  {
    if args != [] {
      var arg := args[0];
      if arg == "--" {
        if |args| > 1 {
          DestinationIsSafe(lib, t, args[1]);
        }
      } else if arg == "" || arg[0] != '-' {
        DestinationIsSafe(lib, t, arg);
        ScanIsSafe(lib, app, classify, args[1..], Destination(lib, t, arg), true);
      } else {
        match classify(arg)
        case Skip => ScanIsSafe(lib, app, classify, args[1..], t, hasDestination);
        case Unknown =>
        case Takes(name, attached) =>
          if attached != "" || |args| > 1 {
            var value := if attached != "" then attached else args[1];
            var rest := if attached != "" then args[1..] else args[2..];
            ApplyIsSafe(lib, app, t, name, value);
            var next := Apply(lib, app, t, name, value);
            if next.Some? {
              ScanIsSafe(lib, app, classify, rest, next.value, hasDestination);
            }
          }
      }
    }
  }

  // ----- the two results for whole command lines -----

  /** Command lines that differ only where the reader does not look give the same target. */
  lemma SameTarget(lib: Library, app: App, a: seq<string>, b: seq<string>)
    requires Indistinguishable(app, Classifier(app), a, b)
    ensures Parsed(lib, app, a) == Parsed(lib, app, b)
  {
    if !app.OtherApp? {
      ScanIgnoresOthers(lib, app, Classifier(app), a, b, START, false);
    }
  }

  lemma ParsedIsSafe(lib: Library, app: App, args: seq<string>)
    ensures SafeTarget(lib, Parsed(lib, app, args))
  {
    ScanIsSafe(lib, app, Classifier(app), args, START, false);
  }

  /** Options only, each with its value: the scan is at the start of an argument behind them. */
  predicate WholeOptions(classify: string -> OptionKind, args: seq<string>) {
    args == [] ||
    (args[0] != "--" && args[0] != "" && args[0][0] == '-' &&
     match classify(args[0])
     case Skip => WholeOptions(classify, args[1..])
     case Unknown => false
     case Takes(_, attached) =>
       if attached != "" then WholeOptions(classify, args[1..])
       else |args| > 1 && WholeOptions(classify, args[2..]))
  }

  lemma {:induction false} IndistinguishableReflexive(app: App, classify: string -> OptionKind, a: seq<string>)
    ensures Indistinguishable(app, classify, a, a)
    decreases |a|
  {
    if a != [] {
      IndistinguishableReflexive(app, classify, a[1..]);
      if |a| > 1 {
        IndistinguishableReflexive(app, classify, a[2..]);
      }
    }
  }

  lemma {:induction false} BehindOptions(
    app: App, classify: string -> OptionKind, pre: seq<string>, x: seq<string>, y: seq<string>)
    requires WholeOptions(classify, pre) && Indistinguishable(app, classify, x, y)
    ensures Indistinguishable(app, classify, pre + x, pre + y)
    decreases |pre|
  {
    if pre == [] {
      assert pre + x == x && pre + y == y;
    } else {
      assert (pre + x)[1..] == pre[1..] + x && (pre + y)[1..] == pre[1..] + y;
      match classify(pre[0])
      case Skip => BehindOptions(app, classify, pre[1..], x, y);
      case Takes(_, attached) =>
        if attached != "" {
          BehindOptions(app, classify, pre[1..], x, y);
        } else {
          assert (pre + x)[2..] == pre[2..] + x && (pre + y)[2..] == pre[2..] + y;
          assert (pre + x)[1] == pre[1] == (pre + y)[1];
          BehindOptions(app, classify, pre[2..], x, y);
        }
    }
  }

  lemma UninterpretedValue(
    app: App, classify: string -> OptionKind, option: string, x: string, y: string, post: seq<string>)
    requires option != "--" && option != "" && option[0] == '-'
    requires classify(option).Takes? && classify(option).attached == "" && !Interpreted(app, classify(option).name)
    ensures Indistinguishable(app, classify, [option, x] + post, [option, y] + post)
  {
    var (a, b) := ([option, x] + post, [option, y] + post);
    assert a[2..] == post && b[2..] == post;
    IndistinguishableReflexive(app, classify, post);
  }

  /** The value of an option that is not interpreted, a password say, never shows in the target. */
  lemma SecretsDoNotShow(
    lib: Library, app: App, pre: seq<string>, option: string, x: string, y: string, post: seq<string>)
    requires WholeOptions(Classifier(app), pre)
    requires option != "--" && option != "" && option[0] == '-'
    requires var c := Classifier(app)(option); c.Takes? && c.attached == "" && !Interpreted(app, c.name)
    ensures Parsed(lib, app, pre + ([option, x] + post)) == Parsed(lib, app, pre + ([option, y] + post))
  {
    var classify := Classifier(app);
    UninterpretedValue(app, classify, option, x, y, post);
    BehindOptions(app, classify, pre, [option, x] + post, [option, y] + post);
    SameTarget(lib, app, pre + ([option, x] + post), pre + ([option, y] + post));
  }

  /** For ssh and plink nothing behind the destination matters: a remote command may stand there. */
  lemma RemoteCommandDoesNotShow(
    lib: Library, app: App, pre: seq<string>, destination: string, x: seq<string>, y: seq<string>)
    requires WholeOptions(Classifier(app), pre) && !app.Putty?
    requires destination == "" || destination[0] != '-'
    ensures Parsed(lib, app, pre + ([destination] + x)) == Parsed(lib, app, pre + ([destination] + y))
  {
    BehindOptions(app, Classifier(app), pre, [destination] + x, [destination] + y);
    SameTarget(lib, app, pre + ([destination] + x), pre + ([destination] + y));
  }

  // ----- what is found -----

  /** What whole options make of a target, one after the other; None when one spoils it. */
  function Applied(lib: Library, app: App, classify: string -> OptionKind, options: seq<string>, t: Target)
    : Option<Target>
    requires WholeOptions(classify, options)
    decreases |options|
  {
    if options == [] then Some(t)
    else
      match classify(options[0])
      case Skip => Applied(lib, app, classify, options[1..], t)
      case Takes(name, attached) =>
        var value := if attached != "" then attached else options[1];
        var rest := if attached != "" then options[1..] else options[2..];
        var next := Apply(lib, app, t, name, value);
        if next.None? then None else Applied(lib, app, classify, rest, next.value)
  }

  function OrNothing(t: Option<Target>): Target {
    if t.Some? then t.value else NOTHING
  }

  /** Whole options are applied in order, and then the scan goes on behind them. */
  lemma {:induction false} ScanOptions(
    lib: Library, app: App, classify: string -> OptionKind, options: seq<string>, rest: seq<string>, t: Target,
    hasDestination: bool)
    requires WholeOptions(classify, options)
    ensures var after := Applied(lib, app, classify, options, t);
            Scan(lib, app, classify, options + rest, t, hasDestination) ==
            if after.None? then NOTHING else Scan(lib, app, classify, rest, after.value, hasDestination)
    decreases |options|
  {
    if options == [] {
      assert options + rest == rest;
    } else {
      assert (options + rest)[0] == options[0] && (options + rest)[1..] == options[1..] + rest;
      match classify(options[0])
      case Skip => ScanOptions(lib, app, classify, options[1..], rest, t, hasDestination);
      case Takes(name, attached) =>
        var value := if attached != "" then attached else options[1];
        var behind := if attached != "" then options[1..] else options[2..];
        if attached == "" {
          assert (options + rest)[1] == options[1] && (options + rest)[2..] == options[2..] + rest;
        }
        var next := Apply(lib, app, t, name, value);
        if next.Some? {
          ScanOptions(lib, app, classify, behind, rest, next.value, hasDestination);
        }
    }
  }

  /** Options alone report what they say, for every application. */
  lemma OptionsReport(lib: Library, app: App, options: seq<string>)
    requires !app.OtherApp? && WholeOptions(Classifier(app), options)
    ensures Parsed(lib, app, options) == OrNothing(Applied(lib, app, Classifier(app), options, START))
  {
    OptionsToTheEnd(lib, app, Classifier(app), options, START, false);
  }

  /** ssh and plink: options, a destination, and anything behind it report options and destination. */
  lemma DestinationReported(lib: Library, app: App, options: seq<string>, destination: string, rest: seq<string>)
    requires (app.Ssh? || app.Plink?) && WholeOptions(Classifier(app), options)
    requires destination == "" || destination[0] != '-'
    ensures var t := Applied(lib, app, Classifier(app), options, START);
            Parsed(lib, app, options + ([destination] + rest)) ==
            if t.None? then NOTHING else Destination(lib, t.value, destination)
  {
    ScanOptions(lib, app, Classifier(app), options, [destination] + rest, START, false);
  }

  lemma PuttyDestination(
    lib: Library, classify: string -> OptionKind, destination: string, more: seq<string>, t: Target)
    requires destination == "" || destination[0] != '-'
    ensures Scan(lib, Putty, classify, [destination] + more, t, false) ==
            Scan(lib, Putty, classify, more, Destination(lib, t, destination), true)
  {
    var args := [destination] + more;
    assert args[0] == destination && args[1..] == more && destination != "--";
    PuttyGoesOn(lib, classify, args, t);
  }

  lemma PuttyGoesOn(lib: Library, classify: string -> OptionKind, args: seq<string>, t: Target)
    requires args != [] && args[0] != "--" && (args[0] == "" || args[0][0] != '-')
    ensures Scan(lib, Putty, classify, args, t, false) ==
            Scan(lib, Putty, classify, args[1..], Destination(lib, t, args[0]), true)
  {
  }

  lemma OptionsToTheEnd(lib: Library, app: App, classify: string -> OptionKind, options: seq<string>, t: Target,
                        hasDestination: bool)
    requires WholeOptions(classify, options)
    ensures Scan(lib, app, classify, options, t, hasDestination) == OrNothing(Applied(lib, app, classify, options, t))
  {
    ScanOptions(lib, app, classify, options, [], t, hasDestination);
    assert options + [] == options;
  }

  /** putty: the options behind the destination count too. */
  lemma PuttyReported(lib: Library, options: seq<string>, destination: string, more: seq<string>)
    requires WholeOptions(Classifier(Putty), options) && WholeOptions(Classifier(Putty), more)
    requires destination == "" || destination[0] != '-'
    ensures var t := Applied(lib, Putty, Classifier(Putty), options, START);
            Parsed(lib, Putty, options + ([destination] + more)) ==
            if t.None? then NOTHING
            else OrNothing(Applied(lib, Putty, Classifier(Putty), more, Destination(lib, t.value, destination)))
  {
    var classify := Classifier(Putty);
    ScanOptions(lib, Putty, classify, options, [destination] + more, START, false);
    var t := Applied(lib, Putty, classify, options, START);
    if t.Some? {
      PuttyDestination(lib, classify, destination, more, t.value);
      OptionsToTheEnd(lib, Putty, classify, more, Destination(lib, t.value, destination), true);
    }
  }

  /** An option that the application is not known to have spoils everything. */
  lemma UnknownOptionSpoils(lib: Library, app: App, options: seq<string>, unknown: string, rest: seq<string>)
    requires WholeOptions(Classifier(app), options)
    requires unknown != "" && unknown != "--" && unknown[0] == '-' && Classifier(app)(unknown).Unknown?
    ensures Parsed(lib, app, options + ([unknown] + rest)) == NOTHING
  {
    if !app.OtherApp? {
      ScanSpoiled(lib, app, Classifier(app), options, unknown, rest);
    }
  }

  lemma ScanSpoiled(
    lib: Library, app: App, classify: string -> OptionKind, options: seq<string>, unknown: string, rest: seq<string>)
    requires WholeOptions(classify, options)
    requires unknown != "" && unknown != "--" && unknown[0] == '-' && classify(unknown).Unknown?
    ensures Scan(lib, app, classify, options + ([unknown] + rest), START, false) == NOTHING
  {
    ScanOptions(lib, app, classify, options, [unknown] + rest, START, false);
  }
}
