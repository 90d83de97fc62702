/**
 What the command lines that clients really have are read as, written out: which options are
 known, which take a value, and what each of them and each form of a destination reports.
 */
module ClientForms {
  import opened Bytes
  import opened ClientTarget

  // ----- the option tables -----

  predicate Word(s: string) {
    s != "" && forall i :: 0 <= i < |s| ==> s[i] != ' '
  }

  lemma WordAtHead(w: string, name: string, rest: string)
    requires Word(w) && Word(name) && rest != "" && rest[0] == ' '
    ensures " " + w + " " <= " " + name + rest <==> w == name
  {
    var needle, hay := " " + w + " ", " " + name + rest;
    if |w| < |name| {
      assert needle[|w| + 1] == ' ' && hay[|w| + 1] == name[|w|];
    } else if |w| > |name| {
      assert needle[|name| + 1] == w[|name|] && hay[|name| + 1] == ' ';
    }
    if needle <= hay {
      assert forall i :: 0 <= i < |needle| ==> needle[i] == hay[i];
      if |w| == |name| {
        assert forall i :: 0 <= i < |w| ==> w[i] == needle[i + 1] == hay[i + 1] == name[i];
      }
    }
    if w == name {
      assert hay[..|needle|] == needle;
    }
  }

  /** From inside a word no search begins. */
  lemma {:induction false} PastWord(w: string, inside: string, rest: string)
    requires forall i :: 0 <= i < |inside| ==> inside[i] != ' '
    ensures Contains(inside + rest, " " + w + " ") == Contains(rest, " " + w + " ")
  {
    if inside == "" {
      assert inside + rest == rest;
    } else {
      assert (inside + rest)[0] == inside[0] && (" " + w + " ")[0] == ' ';
      assert (inside + rest)[1..] == inside[1..] + rest;
      PastWord(w, inside[1..], rest);
    }
  }

  /** The substring search finds a word in a table exactly when it is one of the names. */
  lemma {:induction false} WordInListing(names: seq<string>, w: string)
    requires Word(w) && forall i :: 0 <= i < |names| ==> Word(names[i])
    ensures Contains(Listing(names), " " + w + " ") <==> w in names
  {
    var needle := " " + w + " ";
    if names == [] {
      assert !(needle <= " ") && " "[1..] == "";
      assert !Contains("", needle);
    } else {
      var rest := Listing(names[1..]);
      WordInListing(names[1..], w);
      WordAtHead(w, names[0], rest);
      assert (" " + names[0] + rest)[1..] == names[0] + rest;
      PastWord(w, names[0], rest);
      assert names == [names[0]] + names[1..];
    }
  }

  const SSH_FLAGS: seq<string> := [
    "-4", "-6", "-A", "-a", "-C", "-f", "-G", "-g", "-K", "-k", "-M", "-N", "-n", "-q", "-s", "-T", "-t",
    "-V", "-v", "-X", "-x", "-Y", "-y"]

  const SSH_VALUES: seq<string> := [
    "-B", "-b", "-c", "-D", "-E", "-e", "-F", "-I", "-i", "-J", "-L", "-l", "-m", "-O", "-o", "-P", "-p",
    "-Q", "-R", "-S", "-W", "-w"]

  const PUTTY_FLAGS: seq<string> := [
    "-ssh", "-2", "-4", "-6", "-batch", "-agent", "-noagent", "-A", "-a", "-C", "-N", "-T", "-t", "-v",
    "-x", "-X", "-share", "-noshare", "-no-antispoof"]

  const PUTTY_VALUES: seq<string> := [
    "-l", "-P", "-load", "-pw", "-pwfile", "-i", "-m", "-L", "-R", "-D", "-nc", "-proxycmd", "-hostkey",
    "-loghost", "-sercfg", "-sessionlog", "-sshlog", "-sshrawlog"]

  // ----- which options are known -----

  function KnownFlags(app: App): seq<string> {
    if app.Ssh? then SSH_FLAGS else PUTTY_FLAGS
  }

  function KnownValues(app: App): seq<string> {
    if app.Ssh? then SSH_VALUES else PUTTY_VALUES
  }

  lemma SshNamesAreWords()
    ensures forall i :: 0 <= i < |SSH_FLAGS| ==> Word(SSH_FLAGS[i])
    ensures forall i :: 0 <= i < |SSH_VALUES| ==> Word(SSH_VALUES[i])
  {
  }

  lemma PuttyNamesAreWords()
    ensures forall i :: 0 <= i < |PUTTY_FLAGS| ==> Word(PUTTY_FLAGS[i])
    ensures forall i :: 0 <= i < |PUTTY_VALUES| ==> Word(PUTTY_VALUES[i])
  {
  }

  lemma NamesAreKnown(app: App)
    ensures FlagNames(app) == KnownFlags(app) && ValueNames(app) == KnownValues(app)
  {
  }

  lemma KnownAreWords(app: App)
    ensures forall i :: 0 <= i < |KnownFlags(app)| ==> Word(KnownFlags(app)[i])
    ensures forall i :: 0 <= i < |KnownValues(app)| ==> Word(KnownValues(app)[i])
  {
    SshNamesAreWords();
    PuttyNamesAreWords();
  }

  lemma Found(names: seq<string>, listing: string, w: string)
    requires Word(w) && listing == Listing(names) && forall i :: 0 <= i < |names| ==> Word(names[i])
    ensures Contains(listing, " " + w + " ") <==> w in names
  {
    WordInListing(names, w);
  }

  /** An option of ssh that carries its value: -l or -p with something behind it. */
  predicate Attached(app: App, arg: string) {
    app.Ssh? && |arg| > 2 && (arg[1] == 'l' || arg[1] == 'p')
  }

  /** A word is looked up in tables of words. */
  lemma LookUpExact(ssh: bool, flags: seq<string>, values: seq<string>, arg: string)
    requires Word(arg) && !(ssh && |arg| > 2 && (arg[1] == 'l' || arg[1] == 'p'))
    requires forall i :: 0 <= i < |flags| ==> Word(flags[i])
    requires forall i :: 0 <= i < |values| ==> Word(values[i])
    ensures var verbose := ssh && |arg| > 2 && forall i :: 1 <= i < |arg| ==> arg[i] == 'v';
            LookUp(ssh, Listing(flags), Listing(values), arg) ==
            if verbose || arg in flags then Skip else if arg in values then Takes(arg, "") else Unknown
  {
    WordInListing(flags, arg);
    WordInListing(values, arg);
    AllVExact(arg);
  }

  /** So is the name in front of an attached value. */
  lemma LookUpAttached(flags: seq<string>, values: seq<string>, arg: string)
    requires |arg| > 2 && (arg[..2] == "-l" || arg[..2] == "-p")
    requires forall i :: 0 <= i < |flags| ==> Word(flags[i])
    requires forall i :: 0 <= i < |values| ==> Word(values[i])
    requires arg[..2] !in flags && arg[..2] in values
    ensures LookUp(true, Listing(flags), Listing(values), arg) == Takes(arg[..2], arg[2..])
  {
    var name := arg[..2];
    assert name[1] == arg[1] && arg[1..][0] == arg[1];
    WordInListing(flags, name);
    WordInListing(values, name);
  }

  lemma AllVExact(arg: string)
    requires arg != ""
    ensures AllV(arg[1..]) <==> forall i :: 1 <= i < |arg| ==> arg[i] == 'v'
  {
    assert forall i :: 1 <= i < |arg| ==> arg[i] == arg[1..][i - 1];
  }

  /** For ssh an argument without spaces is what the tables say it is, and -vv and so on are flags. */
  lemma SshOptionExact(app: App, arg: string)
    requires app.Ssh? && Word(arg) && !Attached(app, arg)
    ensures var verbose := |arg| > 2 && forall i :: 1 <= i < |arg| ==> arg[i] == 'v';
            Classify(app, arg) ==
            if verbose || arg in SSH_FLAGS then Skip else if arg in SSH_VALUES then Takes(arg, "") else Unknown
  {
    NamesAreKnown(app);
    SshNamesAreWords();
    LookUpExact(true, SSH_FLAGS, SSH_VALUES, arg);
  }

  /** And so for PuTTY and Plink. */
  lemma PuttyOptionExact(app: App, arg: string)
    requires !app.Ssh? && Word(arg)
    ensures Classify(app, arg) ==
            if arg in PUTTY_FLAGS then Skip else if arg in PUTTY_VALUES then Takes(arg, "") else Unknown
  {
    NamesAreKnown(app);
    PuttyNamesAreWords();
    LookUpExact(false, PUTTY_FLAGS, PUTTY_VALUES, arg);
  }

  lemma LoginAndPortTakeValues()
    ensures "-l" !in SSH_FLAGS && "-p" !in SSH_FLAGS && "-l" in SSH_VALUES && "-p" in SSH_VALUES
  {
  }

  /** ssh takes -l and -p with the value attached, whatever the value. */
  lemma AttachedExact(app: App, arg: string)
    requires app.Ssh? && |arg| > 2 && (arg[..2] == "-l" || arg[..2] == "-p")
    ensures Classify(app, arg) == Takes(arg[..2], arg[2..])
  {
    NamesAreKnown(app);
    KnownAreWords(app);
    LoginAndPortTakeValues();
    LookUpAttached(KnownFlags(app), KnownValues(app), arg);
  }

  /** An argument with a space inside can match two neighbouring names at once. */
  lemma TwoNamesMatch(app: App)
    ensures var names := FlagNames(app);
            |names| >= 2 && Contains(Flags(app), " " + (names[0] + " " + names[1]) + " ")
  {
    TwoAtHead(FlagNames(app));
  }

  lemma TwoAtHead(names: seq<string>)
    requires |names| >= 2
    ensures " " + (names[0] + " " + names[1]) + " " <= Listing(names)
  {
    var rest := Listing(names[1..][1..]);
    assert names[1..][0] == names[1];
    assert Listing(names) == " " + names[0] + (" " + names[1] + rest);
    TwoThenSpace(names[0], names[1], rest);
  }

  lemma TwoThenSpace(a: string, b: string, rest: string)
    requires rest != "" && rest[0] == ' '
    ensures " " + (a + " " + b) + " " <= " " + a + (" " + b + rest)
  {
    var whole := " " + (a + " " + b);
    assert " " + a + (" " + b + rest) == whole + rest;
    assert rest == " " + rest[1..];
    assert whole + rest == whole + " " + rest[1..];
  }

  // ----- fields -----

  /** What counts as the text of a host: the filter, character by character. */
  predicate HostText(lib: Library, host: string) {
    && 1 <= |host| <= 253 && lib.plain(host) && host[0] != '-'
    && (forall i :: 0 <= i < |host| ==>
          host[i] != '/' && host[i] != '\\' && host[i] != '@' && host[i] != '"' && host[i] != '\'')
    && ((exists i :: 0 <= i < |host| && host[i] == ':') ==> lib.isIP(Before(host, '%')))
  }

  lemma HostExact(lib: Library, host: string)
    ensures SafeHost(lib, host) == (if HostText(lib, host) then host else "")
    ensures HostText(lib, host) ==> HostOk(lib, host)
  {
    CharsExact(host);
  }

  lemma CharsExact(host: string)
    ensures ContainsAny(host, "/\\@\"'") <==>
            exists i :: 0 <= i < |host| &&
              (host[i] == '/' || host[i] == '\\' || host[i] == '@' || host[i] == '"' || host[i] == '\'')
  {
  }

  /** The part of an address in front of its zone. */
  lemma {:induction false} ZoneExact(address: string, zone: string)
    requires forall i :: 0 <= i < |address| ==> address[i] != '%'
    ensures Before(address, '%') == address && Before(address + "%" + zone, '%') == address
  {
    if address != "" {
      assert (address + "%" + zone)[1..] == address[1..] + "%" + zone;
      ZoneExact(address[1..], zone);
    }
  }

  /** A user: 1 to 253 plain characters. */
  lemma UserExact(lib: Library, user: string)
    ensures SafeTargetField(lib, user) == if 1 <= |user| <= 253 && lib.plain(user) then user else ""
  {
  }

  function DigitOf(d: nat): (c: char)
    requires d < 10
    ensures '0' <= c <= '9' && c as nat - '0' as nat == d
  {
    (48 + d) as char
  }

  function Digits(n: nat): (s: string)
    ensures s != "" && forall i :: 0 <= i < |s| ==> '0' <= s[i] <= '9'
  {
    var last := DigitOf(n % 10);
    if n < 10 then [last] else Digits(n / 10) + [last]
  }

  function Zeros(k: nat): (s: string)
    ensures |s| == k && forall i :: 0 <= i < |s| ==> s[i] == '0'
  {
    if k == 0 then "" else "0" + Zeros(k - 1)
  }

  lemma {:induction false} DigitsValue(k: nat, n: nat)
    ensures DecimalValue(Zeros(k) + Digits(n)) == n
    decreases n
  {
    var s := Zeros(k) + Digits(n);
    var last := DigitOf(n % 10);
    if n < 10 {
      assert s[..|s| - 1] == Zeros(k);
      ZerosValue(k);
    } else {
      assert s[..|s| - 1] == Zeros(k) + Digits(n / 10);
      DigitsValue(k, n / 10);
    }
    assert s[|s| - 1] == last;
  }

  lemma {:induction false} ZerosValue(k: nat)
    ensures DecimalValue(Zeros(k)) == 0
  {
    if k > 0 {
      var z := Zeros(k);
      assert z[..k - 1] == Zeros(k - 1) by {
        assert forall i :: 0 <= i < k - 1 ==> z[i] == Zeros(k - 1)[i];
      }
      ZerosValue(k - 1);
    }
  }

  /** The decimal writing of 1 to 65535, with any zeros in front, is that port. */
  lemma PortIsRead(k: nat, n: nat)
    requires 1 <= n <= 65535
    ensures ParsePort(Zeros(k) + Digits(n)) == Some(n)
  {
    DigitsValue(k, n);
  }

  /** Nothing else is a port. */
  lemma PortIsWritten(s: string)
    requires ParsePort(s).Some?
    ensures exists k: nat :: s == Zeros(k) + Digits(ParsePort(s).value)
  {
    var k := Written(s);
  }

  lemma {:induction false} Written(s: string) returns (k: nat)
    requires s != "" && forall i :: 0 <= i < |s| ==> '0' <= s[i] <= '9'
    ensures s == Zeros(k) + Digits(DecimalValue(s))
  {
    var front, last := s[..|s| - 1], s[|s| - 1];
    var d := last as nat - '0' as nat;
    assert s == front + [last] && last == DigitOf(d);
    assert DecimalValue(s) == DecimalValue(front) * 10 + d;
    if front == "" {
      k := 0;
    } else {
      k := Written(front);
      k := OneMoreDigit(front, k, DecimalValue(front), d);
    }
  }

  lemma OneMoreDigit(front: string, k: nat, v: nat, d: nat) returns (k': nat)
    requires front == Zeros(k) + Digits(v) && d < 10
    ensures front + [DigitOf(d)] == Zeros(k') + Digits(v * 10 + d)
  {
    if v == 0 {
      k' := k + 1;
      assert Digits(0) == "0";
      ZerosSnoc(k);
    } else {
      k' := k;
      assert (v * 10 + d) / 10 == v && (v * 10 + d) % 10 == d;
      assert Zeros(k) + Digits(v) + [DigitOf(d)] == Zeros(k) + (Digits(v) + [DigitOf(d)]);
    }
  }

  lemma ZerosSnoc(k: nat)
    ensures Zeros(k) + "0" == Zeros(k + 1)
  {
    assert forall i :: 0 <= i < k + 1 ==> (Zeros(k) + "0")[i] == '0';
  }

  // ----- destinations -----

  predicate Brackets(s: string) {
    forall i :: 0 <= i < |s| ==> s[i] == '[' || s[i] == ']'
  }

  predicate Bare(s: string) {
    s != "" && s[0] != '[' && s[0] != ']' && s[|s| - 1] != '[' && s[|s| - 1] != ']'
  }

  /** Brackets on either side go, however many. */
  lemma {:induction false} TrimExact(pre: string, core: string, post: string)
    requires Brackets(pre) && Brackets(post) && Bare(core)
    ensures TrimBrackets(pre + core + post) == core
    decreases |pre| + |post|
  {
    var s := pre + core + post;
    if pre != "" {
      assert s[0] == pre[0] && s[1..] == pre[1..] + core + post;
      TrimExact(pre[1..], core, post);
    } else if post != "" {
      assert s[0] == core[0] && s[|s| - 1] == post[|post| - 1];
      assert s[..|s| - 1] == pre + core + post[..|post| - 1];
      TrimExact(pre, core, post[..|post| - 1]);
    } else {
      assert s == core;
    }
  }

  /** A host that can stand as it is, or in brackets. */
  predicate PlainHost(lib: Library, h: string) {
    HostText(lib, h) && Bare(h)
  }

  predicate User(lib: Library, u: string) {
    1 <= |u| <= 253 && lib.plain(u)
  }

  /** No user: the text is the host, with or without brackets. */
  lemma HostIsRead(lib: Library, t: Target, pre: string, h: string, post: string)
    requires PlainHost(lib, h) && Brackets(pre) && Brackets(post) && t.host == ""
    requires !("ssh://" <= lib.lower(pre + h + post))
    ensures Destination(lib, t, pre + h + post) == t.(host := h)
  {
    var value := pre + h + post;
    assert forall i :: 0 <= i < |value| ==> value[i] != '@';
    assert LastAt(value) == -1;
    assert value[0..] == value;
    TrimExact(pre, h, post);
    HostExact(lib, h);
  }

  /** A user before the last '@', if he is not known yet. */
  lemma LoginIsTaken(lib: Library, t: Target, u: string, pre: string, h: string, post: string)
    requires PlainHost(lib, h) && Brackets(pre) && Brackets(post) && t.host == "" && t.user == ""
    requires !("ssh://" <= lib.lower(u + "@" + (pre + h + post)))
    ensures Destination(lib, t, u + "@" + (pre + h + post)) ==
            t.(user := if User(lib, u) then u else "", host := h)
  {
    var host := pre + h + post;
    var value := u + "@" + host;
    assert forall i :: 0 <= i < |host| ==> host[i] != '@';
    assert value[|u|] == '@' && forall i :: |u| < i < |value| ==> value[i] == host[i - |u| - 1];
    assert LastAt(value) == |u|;
    assert value[..|u|] == u && value[|u| + 1..] == host;
    TrimExact(pre, h, post);
    HostExact(lib, h);
    UserExact(lib, u);
  }

  /** A URL with nothing but a login: its user, its host, and its port where none is known. */
  lemma UrlIsRead(lib: Library, value: string, u: Option<string>, h: string, slash: bool, k: nat, n: nat)
    requires "ssh://" <= lib.lower(value) && HostText(lib, h) && 1 <= n <= 65535 && (u.Some? ==> User(lib, u.value))
    requires lib.url(value) ==
             Some(Url(h, if slash then "/" else "", "", "", u, false, Zeros(k) + Digits(n)))
    ensures Destination(lib, START, value) == Target(if u.Some? then u.value else "", h, n, "", true)
  {
    PortIsRead(k, n);
    HostExact(lib, h);
    if u.Some? {
      UserExact(lib, u.value);
    }
  }

  /** Without a port it leaves the port alone, and with a password, a path or a query it gives nothing. */
  lemma UrlIsRefused(lib: Library, t: Target, value: string, u: Url)
    requires "ssh://" <= lib.lower(value) && lib.url(value) == Some(u)
    requires (u.user.Some? && u.password) || u.query != "" || u.fragment != "" || (u.path != "" && u.path != "/")
    ensures Destination(lib, t, value) == t
  {
  }

  // ----- options with a value -----

  lemma OptionTakesValue()
    ensures "-o" in SSH_VALUES && "-o" !in SSH_FLAGS
  {
  }

  lemma PuttyLoginTakesValue()
    ensures "-l" in PUTTY_VALUES && "-l" !in PUTTY_FLAGS
  {
  }

  lemma PuttyPortTakesValue()
    ensures "-P" in PUTTY_VALUES && "-P" !in PUTTY_FLAGS
  {
  }

  lemma LoadTakesValue()
    ensures "-load" in PUTTY_VALUES && "-load" !in PUTTY_FLAGS
  {
  }

  predicate ValueName(app: App, name: string) {
    if app.Ssh? then name == "-l" || name == "-p" || name == "-o"
    else name == "-l" || name == "-P" || name == "-load"
  }

  lemma ValueNameIsListed(app: App, name: string)
    requires ValueName(app, name)
    ensures name in KnownValues(app) && name !in KnownFlags(app)
  {
    if app.Ssh? {
      LoginAndPortTakeValues();
      OptionTakesValue();
    } else {
      PuttyLoginTakesValue();
      PuttyPortTakesValue();
      LoadTakesValue();
    }
  }

  lemma ValueNameShape(app: App, name: string)
    requires ValueName(app, name)
    ensures Word(name) && !Attached(app, name) && name != "--" && name[0] == '-' && (app.Ssh? ==> |name| == 2)
  {
  }

  lemma ValueNameKind(app: App, name: string)
    requires ValueName(app, name)
    ensures Classify(app, name) == Takes(name, "") && name != "" && name != "--" && name[0] == '-'
  {
    ValueNameIsListed(app, name);
    ValueNameShape(app, name);
    NamesAreKnown(app);
    KnownAreWords(app);
    LookUpExact(app.Ssh?, KnownFlags(app), KnownValues(app), name);
  }

  /** Any number of flags. */
  predicate FlagsOnly(app: App, pre: seq<string>) {
    forall i :: 0 <= i < |pre| ==> pre[i] in KnownFlags(app)
  }

  lemma FlagKind(app: App, flag: string)
    requires flag in KnownFlags(app)
    ensures flag != "" && flag != "--" && flag[0] == '-' && Classify(app, flag) == Skip
  {
    FlagShape(app, flag);
    NamesAreKnown(app);
    KnownAreWords(app);
    LookUpExact(app.Ssh?, KnownFlags(app), KnownValues(app), flag);
  }

  lemma FlagShape(app: App, flag: string)
    requires flag in KnownFlags(app)
    ensures Word(flag) && flag != "--" && flag[0] == '-' && !Attached(app, flag)
  {
    KnownAreWords(app);
    SshFlagShape();
    PuttyFlagShape();
  }

  lemma SshFlagShape()
    ensures forall i :: 0 <= i < |SSH_FLAGS| ==> |SSH_FLAGS[i]| == 2 && SSH_FLAGS[i][0] == '-' && SSH_FLAGS[i][1] != '-'
  {
  }

  lemma PuttyFlagShape()
    ensures forall i :: 0 <= i < |PUTTY_FLAGS| ==>
              |PUTTY_FLAGS[i]| >= 2 && PUTTY_FLAGS[i][0] == '-' && PUTTY_FLAGS[i][1] != '-'
  {
  }

  lemma {:induction false} FlagsChangeNothing(
    lib: Library, app: App, classify: string -> OptionKind, pre: seq<string>, t: Target)
    requires forall i :: 0 <= i < |pre| ==>
               pre[i] != "" && pre[i] != "--" && pre[i][0] == '-' && classify(pre[i]) == Skip
    ensures WholeOptions(classify, pre) && Applied(lib, app, classify, pre, t) == Some(t)
  {
    if pre != [] {
      FlagsChangeNothing(lib, app, classify, pre[1..], t);
    }
  }

  /** Behind flags the scan stands where it started. */
  lemma BehindFlags(lib: Library, app: App, pre: seq<string>, rest: seq<string>)
    requires FlagsOnly(app, pre) && !app.OtherApp?
    ensures Parsed(lib, app, pre + rest) == Scan(lib, app, Classifier(app), rest, START, false)
  {
    forall i | 0 <= i < |pre|
      ensures pre[i] != "" && pre[i] != "--" && pre[i][0] == '-' && Classifier(app)(pre[i]) == Skip
    {
      FlagKind(app, pre[i]);
    }
    FlagsChangeNothing(lib, app, Classifier(app), pre, START);
    ScanOptions(lib, app, Classifier(app), pre, rest, START, false);
  }

  /** An option with its value in the next argument. */
  lemma SeparateValue(lib: Library, app: App, name: string, value: string, rest: seq<string>, t: Target)
    requires ValueName(app, name)
    ensures var next := Apply(lib, app, t, name, value);
            Scan(lib, app, Classifier(app), [name, value] + rest, t, false) ==
            if next.None? then NOTHING else Scan(lib, app, Classifier(app), rest, next.value, false)
  {
    ValueNameKind(app, name);
    ScanTakes(lib, app, Classifier(app), name, value, rest, t);
  }

  lemma ScanTakes(
    lib: Library, app: App, classify: string -> OptionKind, name: string, value: string, rest: seq<string>, t: Target)
    requires name != "" && name != "--" && name[0] == '-' && classify(name) == Takes(name, "")
    ensures var next := Apply(lib, app, t, name, value);
            Scan(lib, app, classify, [name, value] + rest, t, false) ==
            if next.None? then NOTHING else Scan(lib, app, classify, rest, next.value, false)
  {
    var args := [name, value] + rest;
    assert args[0] == name && args[1] == value && args[2..] == rest;
  }

  /** An option of ssh with its value attached. */
  lemma AttachedValue(lib: Library, app: App, name: string, value: string, rest: seq<string>, t: Target)
    requires app.Ssh? && (name == "-l" || name == "-p") && value != ""
    ensures var next := Apply(lib, app, t, name, value);
            Scan(lib, app, Classifier(app), [name + value] + rest, t, false) ==
            if next.None? then NOTHING else Scan(lib, app, Classifier(app), rest, next.value, false)
  {
    var arg := name + value;
    assert arg[..2] == name && arg[2..] == value && arg[0] == '-' && arg != "--";
    assert Classifier(app)(arg) == Takes(name, value) by {
      AttachedExact(app, arg);
    }
    ScanTakesAttached(lib, app, Classifier(app), arg, name, value, rest, t);
  }

  lemma ScanTakesAttached(
    lib: Library, app: App, classify: string -> OptionKind, arg: string, name: string, value: string,
    rest: seq<string>, t: Target)
    requires arg != "" && arg != "--" && arg[0] == '-' && classify(arg) == Takes(name, value) && value != ""
    ensures var next := Apply(lib, app, t, name, value);
            Scan(lib, app, classify, [arg] + rest, t, false) ==
            if next.None? then NOTHING else Scan(lib, app, classify, rest, next.value, false)
  {
    assert ([arg] + rest)[0] == arg && ([arg] + rest)[1..] == rest;
  }

  /** The scan comes to a host at its end, or with anything behind it for ssh and plink. */
  lemma AtHost(lib: Library, app: App, h: string, rest: seq<string>, t: Target)
    requires PlainHost(lib, h) && !("ssh://" <= lib.lower(h)) && (app.Putty? ==> rest == [])
    ensures Scan(lib, app, Classifier(app), [h] + rest, t, false) == if t.host == "" then t.(host := h) else t
  {
    ScanAtHost(lib, app, Classifier(app), h, rest, t);
    if t.host == "" {
      BareHostIsRead(lib, t, h);
    } else {
      HostStays(lib, t, h);
    }
  }

  lemma BareHostIsRead(lib: Library, t: Target, h: string)
    requires PlainHost(lib, h) && !("ssh://" <= lib.lower(h)) && t.host == ""
    ensures Destination(lib, t, h) == t.(host := h)
  {
    assert "" + h + "" == h;
    HostIsRead(lib, t, "", h, "");
  }

  lemma HostStays(lib: Library, t: Target, h: string)
    requires HostText(lib, h) && !("ssh://" <= lib.lower(h)) && t.host != ""
    ensures Destination(lib, t, h) == t
  {
    assert LastAt(h) == -1;
  }

  lemma ScanAtHost(lib: Library, app: App, classify: string -> OptionKind, h: string, rest: seq<string>, t: Target)
    requires h != "" && h[0] != '-' && (app.Putty? ==> rest == [])
    ensures Scan(lib, app, classify, [h] + rest, t, false) == Destination(lib, t, h)
  {
    var args := [h] + rest;
    assert args[0] == h && args[1..] == rest && h != "--";
    if app.Putty? {
      var after := Destination(lib, t, h);
      PuttyGoesOn(lib, classify, args, t);
      assert Scan(lib, Putty, classify, [], after, true) == after;
    }
  }

  // ----- what clients report -----

  /** `ssh [flags] -l user host ...` and `ssh [flags] -luser host ...` */
  lemma SshLogin(lib: Library, pre: seq<string>, u: string, h: string, rest: seq<string>)
    requires FlagsOnly(Ssh, pre) && User(lib, u) && PlainHost(lib, h) && !("ssh://" <= lib.lower(h))
    ensures Parsed(lib, Ssh, pre + (["-l", u] + ([h] + rest))) == Target(u, h, 0, "", true)
    ensures Parsed(lib, Ssh, pre + (["-l" + u] + ([h] + rest))) == Target(u, h, 0, "", true)
  {
    BehindFlags(lib, Ssh, pre, ["-l", u] + ([h] + rest));
    BehindFlags(lib, Ssh, pre, ["-l" + u] + ([h] + rest));
    SeparateValue(lib, Ssh, "-l", u, [h] + rest, START);
    AttachedValue(lib, Ssh, "-l", u, [h] + rest, START);
    LoginMeans(lib, Ssh, START, u);
    AtHost(lib, Ssh, h, rest, START.(user := u));
  }

  lemma LoginMeans(lib: Library, app: App, t: Target, u: string)
    requires User(lib, u)
    ensures Apply(lib, app, t, "-l", u) == Some(t.(user := u))
  {
    UserExact(lib, u);
  }

  /** `ssh [flags] -p port host ...` and `ssh [flags] -pport host ...` */
  lemma SshPort(lib: Library, pre: seq<string>, k: nat, n: nat, h: string, rest: seq<string>)
    requires FlagsOnly(Ssh, pre) && 1 <= n <= 65535 && PlainHost(lib, h) && !("ssh://" <= lib.lower(h))
    ensures var port := Zeros(k) + Digits(n);
            && Parsed(lib, Ssh, pre + (["-p", port] + ([h] + rest))) == Target("", h, n, "", true)
            && Parsed(lib, Ssh, pre + (["-p" + port] + ([h] + rest))) == Target("", h, n, "", true)
  {
    var port := Zeros(k) + Digits(n);
    BehindFlags(lib, Ssh, pre, ["-p", port] + ([h] + rest));
    BehindFlags(lib, Ssh, pre, ["-p" + port] + ([h] + rest));
    SeparateValue(lib, Ssh, "-p", port, [h] + rest, START);
    AttachedValue(lib, Ssh, "-p", port, [h] + rest, START);
    PortMeans(lib, Ssh, START, k, n);
    AtHost(lib, Ssh, h, rest, START.(port := n));
  }

  function PortName(app: App): string {
    if app.Ssh? then "-p" else "-P"
  }

  lemma PortMeans(lib: Library, app: App, t: Target, k: nat, n: nat)
    requires 1 <= n <= 65535
    ensures Apply(lib, app, t, PortName(app), Zeros(k) + Digits(n)) == Some(t.(port := n))
  {
    PortIsRead(k, n);
  }

  /** Not the decimal writing of 1 to 65535. */
  ghost predicate NoPort(s: string) {
    forall k: nat, n: nat :: 1 <= n <= 65535 ==> s != Zeros(k) + Digits(n)
  }

  /** A port that is not the writing of 1 to 65535 makes the whole command line report nothing. */
  lemma BadPortReportsNothing(lib: Library, app: App, pre: seq<string>, port: string, rest: seq<string>)
    requires FlagsOnly(app, pre) && !app.OtherApp?
    requires NoPort(port)
    ensures Parsed(lib, app, pre + ([PortName(app), port] + rest)) == Target("", "", 0, "", false)
  {
    if ParsePort(port).Some? {
      PortIsWritten(port);
      assert false;
    }
    BehindFlags(lib, app, pre, [PortName(app), port] + rest);
    SeparateValue(lib, app, PortName(app), port, rest, START);
  }

  /** `ssh [flags] -o User=user`, `-o HostName=host`, `-o Port=port`, each alone on the command line. */
  lemma SshOptionForms(lib: Library, pre: seq<string>, kv: string, key: string, value: string, k: nat, n: nat)
    requires FlagsOnly(Ssh, pre) && lib.fields(kv) == [key, value]
    ensures lib.lower(key) == "user" && User(lib, value) ==>
              Parsed(lib, Ssh, pre + (["-o", kv] + [])) == Target(value, "", 0, "", true)
    ensures lib.lower(key) == "hostname" && HostText(lib, value) ==>
              Parsed(lib, Ssh, pre + (["-o", kv] + [])) == Target("", value, 0, "", true)
    ensures lib.lower(key) == "port" && 1 <= n <= 65535 && value == Zeros(k) + Digits(n) ==>
              Parsed(lib, Ssh, pre + (["-o", kv] + [])) == Target("", "", n, "", true)
    ensures lib.lower(key) == "port" && NoPort(value) ==>
              Parsed(lib, Ssh, pre + (["-o", kv] + [])) == Target("", "", 0, "", false)
  {
    BehindFlags(lib, Ssh, pre, ["-o", kv] + []);
    SeparateValue(lib, Ssh, "-o", kv, [], START);
    OptionMeans(lib, START, kv, key, value, k, n);
  }

  lemma OptionMeans(lib: Library, t: Target, kv: string, key: string, value: string, k: nat, n: nat)
    requires lib.fields(kv) == [key, value]
    ensures var after := Apply(lib, Ssh, t, "-o", kv);
            && (lib.lower(key) == "user" && User(lib, value) ==> after == Some(t.(user := value)))
            && (lib.lower(key) == "hostname" && HostText(lib, value) ==> after == Some(t.(host := value)))
            && (lib.lower(key) == "port" && 1 <= n <= 65535 && value == Zeros(k) + Digits(n) ==>
                  after == Some(t.(port := n)))
            && (lib.lower(key) == "port" && NoPort(value) ==> after == None)
  {
    UserExact(lib, value);
    HostExact(lib, value);
    if 1 <= n <= 65535 {
      PortIsRead(k, n);
    }
    if ParsePort(value).Some? {
      PortIsWritten(value);
    }
  }

  /** `putty` and `plink`: -l user, -P port, and a host. */
  lemma PuttyLogin(lib: Library, app: App, pre: seq<string>, u: string, k: nat, n: nat, h: string)
    requires (app.Putty? || app.Plink?) && FlagsOnly(app, pre) && User(lib, u) && 1 <= n <= 65535
    requires PlainHost(lib, h) && !("ssh://" <= lib.lower(h))
    ensures Parsed(lib, app, pre + (["-l", u] + (["-P", Zeros(k) + Digits(n)] + ([h] + [])))) ==
            Target(u, h, n, "", true)
  {
    var port := Zeros(k) + Digits(n);
    BehindFlags(lib, app, pre, ["-l", u] + (["-P", port] + ([h] + [])));
    SeparateValue(lib, app, "-l", u, ["-P", port] + ([h] + []), START);
    LoginMeans(lib, app, START, u);
    SeparateValue(lib, app, "-P", port, [h] + [], START.(user := u));
    PortMeans(lib, app, START.(user := u), k, n);
    AtHost(lib, app, h, [], START.(user := u, port := n));
  }

  /** `-load session` reports the session. */
  lemma SessionReported(lib: Library, app: App, pre: seq<string>, session: string)
    requires (app.Putty? || app.Plink?) && FlagsOnly(app, pre)
    ensures Parsed(lib, app, pre + (["-load", session] + [])) == Target("", "", 0, session, true)
  {
    BehindFlags(lib, app, pre, ["-load", session] + []);
    SeparateValue(lib, app, "-load", session, [], START);
  }

  /** Any destination that does not begin with a dash: what is read of it is what is reported. */
  lemma DestinationAlone(lib: Library, app: App, pre: seq<string>, d: string)
    requires !app.OtherApp? && FlagsOnly(app, pre) && d != "" && d[0] != '-'
    ensures Parsed(lib, app, pre + ([d] + [])) == Destination(lib, Target("", "", 0, "", true), d)
  {
    BehindFlags(lib, app, pre, [d] + []);
    ScanAtHost(lib, app, Classifier(app), d, [], START);
  }

  /** No other program's command line is read. */
  lemma OthersReportNothing(lib: Library, args: seq<string>)
    ensures Parsed(lib, OtherApp, args) == Target("", "", 0, "", false)
  {
  }

  /** Behind `--` stands the destination, whatever it begins with, and nothing else is looked at. */
  lemma DashesThenDestination(lib: Library, app: App, pre: seq<string>, d: string, rest: seq<string>)
    requires !app.OtherApp? && FlagsOnly(app, pre)
    ensures Parsed(lib, app, pre + (["--", d] + rest)) == Destination(lib, Target("", "", 0, "", true), d)
    ensures Parsed(lib, app, pre + ["--"]) == Target("", "", 0, "", true)
  {
    BehindFlags(lib, app, pre, ["--", d] + rest);
    BehindFlags(lib, app, pre, ["--"]);
    assert (["--", d] + rest)[1] == d;
  }

  /** A second destination makes the command line of PuTTY report nothing. */
  lemma TwoDestinationsReportNothing(lib: Library, pre: seq<string>, d: string, second: string, rest: seq<string>)
    requires FlagsOnly(Putty, pre) && d != "" && d[0] != '-' && (second == "" || second[0] != '-')
    ensures Parsed(lib, Putty, pre + ([d] + ([second] + rest))) == Target("", "", 0, "", false)
  {
    var args := [d] + ([second] + rest);
    BehindFlags(lib, Putty, pre, args);
    PuttyGoesOn(lib, Classifier(Putty), args, START);
    assert args[1..] == [second] + rest;
    SecondDestination(lib, Classifier(Putty), [second] + rest, Destination(lib, START, d));
  }

  lemma SecondDestination(lib: Library, classify: string -> OptionKind, args: seq<string>, t: Target)
    requires args != [] && (args[0] == "" || args[0][0] != '-')
    ensures Scan(lib, Putty, classify, args, t, true) == NOTHING
  {
    assert args[0] != "--";
  }

  /** An option that lacks its value makes the whole command line report nothing. */
  lemma MissingValueReportsNothing(lib: Library, app: App, pre: seq<string>, name: string)
    requires !app.OtherApp? && FlagsOnly(app, pre) && ValueName(app, name)
    ensures Parsed(lib, app, pre + [name]) == Target("", "", 0, "", false)
  {
    BehindFlags(lib, app, pre, [name]);
    ValueNameKind(app, name);
    MissingValue(lib, app, Classifier(app), name, START);
  }

  lemma MissingValue(lib: Library, app: App, classify: string -> OptionKind, name: string, t: Target)
    requires name != "" && name != "--" && name[0] == '-' && classify(name) == Takes(name, "")
    ensures Scan(lib, app, classify, [name], t, false) == NOTHING
  {
  }
}
