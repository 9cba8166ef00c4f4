// The systemd unit printer and a line-based reader of unit files, in which a
// line that starts with a blank continues the previous directive.
module SystemdUnit {
  import opened Common

  // ---- the printer -----------------------------------------------------------

  function UnLines(ls: seq<string>): string {
    if ls == [] then "" else ls[0] + ("\n" + UnLines(ls[1..]))
  }

  const ENVIRONMENT := "Environment=\""
  const PRE := "ExecStartPre="
  const START := "ExecStart="

  function EnvLine(kv: (string, string)): string {
    ENVIRONMENT + (kv.0 + ("=" + (kv.1 + "\"")))
  }

  function Joined(args: seq<string>): string {
    if args == [] then "" else if |args| == 1 then args[0] else args[0] + " " + Joined(args[1..])
  }

  function Command(bin: string, args: string): string {
    bin + " " + args
  }

  function EnvBlock(env: seq<(string, string)>): string {
    if env == [] then "" else EnvLine(env[0]) + ("\n" + EnvBlock(env[1..]))
  }

  function PreBlock(bin: string, pre: seq<seq<string>>): string {
    if pre == [] then "" else PRE + Command(bin, Joined(pre[0])) + ("\n" + PreBlock(bin, pre[1..]))
  }

  function HeadLines(component: string, root: string): seq<string> {
    ["[Unit]",
     "Description=Computeza-managed " + component,
     "After=network-online.target",
     "Wants=network-online.target",
     "",
     "[Service]",
     "Type=simple",
     "WorkingDirectory=" + root,
     "RuntimeDirectory=" + component,
     "RuntimeDirectoryMode=0755"]
  }

  function TailLines(root: string): seq<string> {
    ["Restart=on-failure",
     "RestartSec=5",
     "NoNewPrivileges=yes",
     "PrivateTmp=yes",
     "ProtectSystem=strict",
     "ProtectHome=yes",
     "ReadWritePaths=" + root,
     "",
     "[Install]",
     "WantedBy=multi-user.target"]
  }

  function Unit(component: string, bin: string, args: string, root: string,
                env: seq<(string, string)>, pre: seq<seq<string>>): string {
    UnLines(HeadLines(component, root))
    + (EnvBlock(env) + (PreBlock(bin, pre)
    + (START + Command(bin, args) + ("\n" + UnLines(TailLines(root))))))
  }

  // ---- the reader --------------------------------------------------------------

  datatype Directive = Env(key: string, value: string) | Pre(command: string) | Start(command: string)

  /** The lines of a text; an unfinished last line counts. */
  function SplitLines(s: string): seq<string>
    decreases |s|
  {
    if s == "" then []
    else
      var n := LineEnd(s);
      [s[..n]] + if n == |s| then [] else SplitLines(s[n + 1..])
  }

  function LineEnd(s: string): (n: nat)
    ensures n <= |s| && '\n' !in s[..n] && (n < |s| ==> s[n] == '\n')
  {
    if s == "" || s[0] == '\n' then 0 else 1 + LineEnd(s[1..])
  }

  predicate Continues(l: string) {
    l != "" && (l[0] == ' ' || l[0] == '\t')
  }

  /** Fold continuation lines into the directive before them. */
  function Fold(ls: seq<string>): seq<string> {
    if ls == [] then []
    else
      var done := Fold(ls[..|ls| - 1]);
      if Continues(ls[|ls| - 1]) && done != [] then
        done[..|done| - 1] + [done[|done| - 1] + ls[|ls| - 1]]
      else done + [ls[|ls| - 1]]
  }

  function Find(s: string, c: char): (n: nat)
    ensures n <= |s| && c !in s[..n] && (n < |s| ==> s[n] == c)
  {
    if s == "" || s[0] == c then 0 else 1 + Find(s[1..], c)
  }

  /** `Environment="key=value"`: the quoted text ends the line and is split at
      the first `=`. */
  function ReadEnv(l: string): Option<Directive> {
    var q := Find(l, '"');
    if q + 1 != |l| then None
    else
      var e := Find(l[..q], '=');
      if e == q then None else Some(Env(l[..e], l[e + 1..q]))
  }

  function ReadLine(l: string): Option<Directive> {
    if StartsWith(l, ENVIRONMENT) then ReadEnv(l[|ENVIRONMENT|..])
    else if StartsWith(l, PRE) then Some(Pre(l[|PRE|..]))
    else if StartsWith(l, START) then Some(Start(l[|START|..]))
    else None
  }

  function ReadAll(ls: seq<string>): seq<Directive> {
    if ls == [] then []
    else Contribution(ls[0]) + ReadAll(ls[1..])
  }

  function Read(unit: string): seq<Directive> {
    ReadAll(Fold(SplitLines(unit)))
  }

  // ---- lines --------------------------------------------------------------------

  predicate Flat(s: string) {
    '\n' !in s
  }

  ghost predicate AllFlat(ls: seq<string>) {
    forall i :: 0 <= i < |ls| ==> Flat(ls[i])
  }

  lemma {:induction false} LineEndAt(l: string, rest: string)
    requires Flat(l)
    ensures LineEnd(l + ("\n" + rest)) == |l|
  {
    var s := l + ("\n" + rest);
    if l == "" {
      assert s == "\n" + rest;
    } else {
      assert s[1..] == l[1..] + ("\n" + rest);
      LineEndAt(l[1..], rest);
    }
  }

  lemma FirstLine(l: string, rest: string)
    requires Flat(l)
    ensures SplitLines(l + ("\n" + rest)) == [l] + SplitLines(rest)
  {
    var s := l + ("\n" + rest);
    LineEndAt(l, rest);
    assert s[..|l|] == l && s[|l| + 1..] == rest;
  }

  lemma {:induction false} SplitUnLines(ls: seq<string>, rest: string)
    requires AllFlat(ls)
    ensures SplitLines(UnLines(ls) + rest) == ls + SplitLines(rest)
  {
    if ls == [] {
      assert UnLines(ls) + rest == rest;
    } else {
      var t := UnLines(ls[1..]);
      SplitUnLines(ls[1..], rest);
      FirstLine(ls[0], t + rest);
      UnLinesHead(ls, rest);
      SplitHead(ls, SplitLines(rest));
    }
  }

  lemma UnLinesHead(ls: seq<string>, rest: string)
    requires ls != []
    ensures UnLines(ls) + rest == ls[0] + ("\n" + (UnLines(ls[1..]) + rest))
  {
  }

  lemma SplitHead<T>(s: seq<T>, rest: seq<T>)
    requires s != []
    ensures [s[0]] + (s[1..] + rest) == s + rest
  {
  }

  lemma {:induction false} NothingToFold(ls: seq<string>)
    requires forall i :: 0 <= i < |ls| ==> !Continues(ls[i])
    ensures Fold(ls) == ls
  {
    if ls != [] {
      NothingToFold(ls[..|ls| - 1]);
      assert ls == ls[..|ls| - 1] + [ls[|ls| - 1]];
    }
  }

  /** What one line contributes. */
  function Contribution(l: string): seq<Directive> {
    if ReadLine(l).Some? then [ReadLine(l).value] else []
  }

  lemma {:induction false} ReadAllConcat(a: seq<string>, b: seq<string>)
    ensures ReadAll(a + b) == ReadAll(a) + ReadAll(b)
  {
    if a == [] {
      assert a + b == b;
    } else {
      assert (a + b)[0] == a[0] && (a + b)[1..] == a[1..] + b;
      ReadAllConcat(a[1..], b);
    }
  }

  /** A fixed line: no directive of interest, no continuation. */
  predicate Inert(l: string) {
    l == "" || (l[0] != 'E' && l[0] != ' ' && l[0] != '\t')
  }

  lemma {:induction false} InertReadsNothing(ls: seq<string>)
    requires forall i :: 0 <= i < |ls| ==> Inert(ls[i])
    ensures ReadAll(ls) == []
  {
    if ls != [] {
      InertReadsNothing(ls[1..]);
      assert ENVIRONMENT[0] == 'E' && PRE[0] == 'E' && START[0] == 'E';
      NotPrefixed(ls[0], ENVIRONMENT);
      NotPrefixed(ls[0], PRE);
      NotPrefixed(ls[0], START);
    }
  }

  lemma NotPrefixed(l: string, p: string)
    requires p != "" && (l == "" || l[0] != p[0])
    ensures !StartsWith(l, p)
  {
    assert |p| <= |l| ==> l[..|p|][0] == l[0];
  }

  // ---- one directive ----------------------------------------------------------

  /** Values the printer's callers supply: no newline, no double quote. */
  predicate Plain(s: string) {
    Flat(s) && '"' !in s
  }

  lemma {:induction false} FindAt(a: string, c: char, b: string)
    requires c !in a
    ensures Find(a + ([c] + b), c) == |a|
  {
    var s := a + ([c] + b);
    if a == "" {
      assert s == [c] + b;
    } else {
      assert s[1..] == a[1..] + ([c] + b);
      FindAt(a[1..], c, b);
    }
  }

  lemma KeyWords(l: string)
    ensures StartsWith(l, PRE) ==> !StartsWith(l, ENVIRONMENT)
    ensures StartsWith(l, START) ==> !StartsWith(l, ENVIRONMENT) && !StartsWith(l, PRE)
  {
    assert ENVIRONMENT[1] == 'n' && PRE[1] == 'x' && START[1] == 'x';
    assert PRE[9] == 'P' && START[9] == '=';
    if StartsWith(l, ENVIRONMENT) { assert l[1] == ENVIRONMENT[1]; }
    if StartsWith(l, PRE) { assert l[1] == PRE[1] && l[9] == PRE[9]; }
    if StartsWith(l, START) { assert l[1] == START[1] && l[9] == START[9]; }
  }

  /** The quoted text of a pair can be split in one way only. */
  predicate Splittable(kv: (string, string)) {
    '=' !in kv.0 && '"' !in kv.0 && '"' !in kv.1
  }

  /** An environment pair reads back as printed exactly when its key has no
      equals sign and neither part has a double quote. */
  lemma EnvReadsBackIff(kv: (string, string))
    ensures ReadLine(EnvLine(kv)) == Some(Env(kv.0, kv.1)) <==> Splittable(kv)
  {
    var body := kv.0 + ("=" + kv.1);
    var l := EnvLine(kv);
    assert l[..|ENVIRONMENT|] == ENVIRONMENT;
    var r := l[|ENVIRONMENT|..];
    assert r == body + (['"'] + "");
    assert '"' in body <==> '"' in kv.0 || '"' in kv.1;
    if '"' in body {
      QuoteInside(r, body);
    } else {
      PlainEnvLine(kv, r, body);
    }
  }

  lemma QuoteInside(r: string, body: string)
    requires '"' in body && r == body + (['"'] + "")
    ensures ReadEnv(r).None?
  {
    var i :| 0 <= i < |body| && body[i] == '"';
    FindBefore(r, '"', i);
  }

  lemma {:induction false} FindBefore(s: string, c: char, i: nat)
    requires i < |s| && s[i] == c
    ensures Find(s, c) <= i
  {
    if s[0] != c { FindBefore(s[1..], c, i - 1); }
  }

  lemma PlainEnvLine(kv: (string, string), r: string, body: string)
    requires body == kv.0 + ("=" + kv.1) && '"' !in body && r == body + (['"'] + "")
    ensures ReadEnv(r) == Some(Env(kv.0, kv.1)) <==> '=' !in kv.0
  {
    FindAt(body, '"', "");
    assert r[..|body|] == body;
    if '=' !in kv.0 {
      FindAt(kv.0, '=', kv.1);
      assert ['='] + kv.1 == "=" + kv.1;
      assert r[..|kv.0|] == kv.0 && r[|kv.0| + 1..|body|] == kv.1;
    } else {
      var e := Find(body, '=');
      assert '=' !in body[..e];
      assert r[..e] == body[..e];
    }
  }

  lemma PreReadsBack(c: string)
    ensures ReadLine(PRE + c) == Some(Pre(c))
  {
    assert (PRE + c)[..|PRE|] == PRE && (PRE + c)[|PRE|..] == c;
    KeyWords(PRE + c);
  }

  lemma StartReadsBack(c: string)
    ensures ReadLine(START + c) == Some(Start(c))
  {
    assert (START + c)[..|START|] == START && (START + c)[|START|..] == c;
    KeyWords(START + c);
  }

  // ---- the blocks ----------------------------------------------------------------

  function EnvLines(env: seq<(string, string)>): seq<string> {
    if env == [] then [] else [EnvLine(env[0])] + EnvLines(env[1..])
  }

  function Envs(env: seq<(string, string)>): (r: seq<Directive>)
    ensures |r| == |env| && forall i :: 0 <= i < |env| ==> r[i] == Env(env[i].0, env[i].1)
  {
    if env == [] then [] else [Env(env[0].0, env[0].1)] + Envs(env[1..])
  }

  function PreLines(bin: string, pre: seq<seq<string>>): seq<string> {
    if pre == [] then [] else [PRE + Command(bin, Joined(pre[0]))] + PreLines(bin, pre[1..])
  }

  function Pres(bin: string, pre: seq<seq<string>>): (r: seq<Directive>)
    ensures |r| == |pre| && forall i :: 0 <= i < |pre| ==> r[i] == Pre(Command(bin, Joined(pre[i])))
  {
    if pre == [] then [] else [Pre(Command(bin, Joined(pre[0])))] + Pres(bin, pre[1..])
  }

  ghost predicate PlainEnv(env: seq<(string, string)>) {
    forall i :: 0 <= i < |env| ==> Plain(env[i].0) && Plain(env[i].1) && '=' !in env[i].0
  }

  ghost predicate FlatArgs(pre: seq<seq<string>>) {
    forall i, j :: 0 <= i < |pre| && 0 <= j < |pre[i]| ==> Flat(pre[i][j])
  }

  lemma FlatConcat(a: string, b: string)
    ensures Flat(a + b) <==> Flat(a) && Flat(b)
  {
  }

  lemma {:induction false} EnvBlockReads(env: seq<(string, string)>)
    requires PlainEnv(env)
    ensures EnvBlock(env) == UnLines(EnvLines(env)) && AllFlat(EnvLines(env))
    ensures ReadAll(EnvLines(env)) == Envs(env)
    ensures forall i :: 0 <= i < |EnvLines(env)| ==> !Continues(EnvLines(env)[i])
  {
    if env != [] {
      EnvBlockReads(env[1..]);
      EnvLineReads(env[0]);
    }
  }

  lemma EnvLineReads(kv: (string, string))
    requires Plain(kv.0) && Plain(kv.1) && '=' !in kv.0
    ensures Flat(EnvLine(kv)) && !Continues(EnvLine(kv)) && Contribution(EnvLine(kv)) == [Env(kv.0, kv.1)]
  {
    EnvReadsBackIff(kv);
    assert Flat(ENVIRONMENT) && ENVIRONMENT[0] == 'E' && EnvLine(kv)[0] == ENVIRONMENT[0];
    FlatConcat(kv.1, "\"");
    FlatConcat("=", kv.1 + "\"");
    FlatConcat(kv.0, "=" + (kv.1 + "\""));
    FlatConcat(ENVIRONMENT, kv.0 + ("=" + (kv.1 + "\"")));
  }

  lemma {:induction false} PreBlockReads(bin: string, pre: seq<seq<string>>)
    requires Flat(bin) && FlatArgs(pre)
    ensures PreBlock(bin, pre) == UnLines(PreLines(bin, pre)) && AllFlat(PreLines(bin, pre))
    ensures ReadAll(PreLines(bin, pre)) == Pres(bin, pre)
    ensures forall i :: 0 <= i < |PreLines(bin, pre)| ==> !Continues(PreLines(bin, pre)[i])
  {
    if pre != [] {
      PreBlockReads(bin, pre[1..]);
      JoinedFlat(pre[0]);
      var c := Command(bin, Joined(pre[0]));
      PreReadsBack(c);
      assert Flat(PRE) && PRE[0] == 'E' && (PRE + c)[0] == PRE[0];
      assert ReadAll([PRE + c] + PreLines(bin, pre[1..])) == [Pre(c)] + ReadAll(PreLines(bin, pre[1..]));
    }
  }

  lemma SectionLiterals()
    ensures Flat("[Unit]") && Flat("[Service]") && Flat("[Install]") && Flat("Type=simple")
  {
  }

  lemma TargetLiterals()
    ensures Flat("After=network-online.target") && Flat("Wants=network-online.target")
    ensures Flat("WantedBy=multi-user.target")
  {
  }

  lemma DirectoryLiterals()
    ensures Flat("WorkingDirectory=") && Flat("RuntimeDirectory=") && Flat("RuntimeDirectoryMode=0755")
    ensures Flat("ReadWritePaths=")
  {
  }

  lemma ServiceLiterals()
    ensures Flat("Description=Computeza-managed ") && Flat("Restart=on-failure") && Flat("RestartSec=5")
  {
  }

  lemma SandboxLiterals()
    ensures Flat("NoNewPrivileges=yes") && Flat("PrivateTmp=yes")
    ensures Flat("ProtectSystem=strict") && Flat("ProtectHome=yes")
  {
  }

  lemma HeadLine(component: string, root: string, i: nat)
    requires Flat(component) && Flat(root) && i < |HeadLines(component, root)|
    ensures Flat(HeadLines(component, root)[i]) && Inert(HeadLines(component, root)[i])
  {
    SectionLiterals();
    TargetLiterals();
    DirectoryLiterals();
    ServiceLiterals();
    FlatConcat("Description=Computeza-managed ", component);
    FlatConcat("WorkingDirectory=", root);
    FlatConcat("RuntimeDirectory=", component);
  }

  lemma TailLine(root: string, i: nat)
    requires Flat(root) && i < |TailLines(root)|
    ensures Flat(TailLines(root)[i]) && Inert(TailLines(root)[i])
  {
    SectionLiterals();
    TargetLiterals();
    DirectoryLiterals();
    ServiceLiterals();
    SandboxLiterals();
    FlatConcat("ReadWritePaths=", root);
  }

  // ---- the round trip ------------------------------------------------------------

  ghost predicate AllInert(ls: seq<string>) {
    forall i :: 0 <= i < |ls| ==> Inert(ls[i])
  }

  ghost predicate NoneContinues(ls: seq<string>) {
    forall i :: 0 <= i < |ls| ==> !Continues(ls[i])
  }

  lemma NoneContinuesConcat(a: seq<string>, b: seq<string>)
    requires NoneContinues(a) && NoneContinues(b)
    ensures NoneContinues(a + b)
  {
  }

  lemma ReadTail(start: string, tail: seq<string>)
    requires AllInert(tail)
    ensures ReadAll([start] + tail) == Contribution(start)
  {
    InertReadsNothing(tail);
    assert ([start] + tail)[0] == start && ([start] + tail)[1..] == tail;
    assert Contribution(start) + [] == Contribution(start);
  }

  /** The directives of the assembled lines are those of the middle blocks. */
  lemma AssembledReads(head: seq<string>, e: seq<string>, p: seq<string>, t: seq<string>)
    requires AllInert(head) && NoneContinues(e) && NoneContinues(p) && NoneContinues(t)
    ensures var ls := head + (e + (p + t));
      Fold(ls) == ls && ReadAll(ls) == ReadAll(e) + (ReadAll(p) + ReadAll(t))
  {
    assert NoneContinues(head);
    NoneContinuesConcat(p, t);
    NoneContinuesConcat(e, p + t);
    NoneContinuesConcat(head, e + (p + t));
    NothingToFold(head + (e + (p + t)));
    InertReadsNothing(head);
    ReadAllConcat(head, e + (p + t));
    ReadAllConcat(e, p + t);
    ReadAllConcat(p, t);
  }

  /** A reader recovers from the printed unit exactly the environment pairs in
      order, then every pre-start command in order, then the one start command. */
  lemma UnitReadsBack(component: string, bin: string, args: string, root: string,
                      env: seq<(string, string)>, pre: seq<seq<string>>)
    requires Flat(component) && Flat(bin) && Flat(args) && Flat(root) && PlainEnv(env) && FlatArgs(pre)
    ensures Read(Unit(component, bin, args, root, env, pre)) == Expected(bin, args, env, pre)
  {
    EnvBlockReads(env);
    PreBlockReads(bin, pre);
    CommandFlat(bin, args);
    StartLine(Command(bin, args));
    HeadReads(component, root);
    TailReads(root);
    BlocksRead(HeadLines(component, root), EnvLines(env), PreLines(bin, pre), START + Command(bin, args), TailLines(root));
    Regrouped(Envs(env), Pres(bin, pre), [Start(Command(bin, args))]);
  }

  lemma Regrouped<T>(a: seq<T>, b: seq<T>, c: seq<T>)
    ensures a + (b + c) == a + b + c
  {
  }

  lemma HeadReads(component: string, root: string)
    requires Flat(component) && Flat(root)
    ensures AllFlat(HeadLines(component, root)) && AllInert(HeadLines(component, root))
  {
    var head := HeadLines(component, root);
    forall i | 0 <= i < |head| ensures Flat(head[i]) && Inert(head[i]) { HeadLine(component, root, i); }
  }

  lemma TailReads(root: string)
    requires Flat(root)
    ensures AllFlat(TailLines(root)) && AllInert(TailLines(root))
  {
    var tail := TailLines(root);
    forall i | 0 <= i < |tail| ensures Flat(tail[i]) && Inert(tail[i]) { TailLine(root, i); }
  }

  lemma BlocksRead(head: seq<string>, e: seq<string>, p: seq<string>, start: string, tail: seq<string>)
    requires AllFlat(head) && AllFlat(e) && AllFlat(p) && Flat(start) && AllFlat(tail)
    requires AllInert(head) && AllInert(tail) && NoneContinues(e) && NoneContinues(p) && !Continues(start)
    ensures Read(UnLines(head) + (UnLines(e) + (UnLines(p) + (start + ("\n" + UnLines(tail))))))
         == ReadAll(e) + (ReadAll(p) + Contribution(start))
  {
    UnitLines(head, e, p, start, tail);
    Assembled(head, e, p, start, tail, head + (e + (p + ([start] + tail))));
  }

  lemma StartLine(c: string)
    requires Flat(c)
    ensures Flat(START + c) && !Continues(START + c) && Contribution(START + c) == [Start(c)]
  {
    StartReadsBack(c);
    assert Flat(START) && START[0] == 'E' && (START + c)[0] == START[0];
  }

  lemma Assembled(head: seq<string>, e: seq<string>, p: seq<string>, start: string, tail: seq<string>, ls: seq<string>)
    requires AllInert(head) && AllInert(tail) && NoneContinues(e) && NoneContinues(p) && !Continues(start)
    requires ls == head + (e + (p + ([start] + tail)))
    ensures ReadAll(Fold(ls)) == ReadAll(e) + (ReadAll(p) + Contribution(start))
  {
    var t := [start] + tail;
    ReadTail(start, tail);
    assert NoneContinues(tail) && NoneContinues([start]);
    NoneContinuesConcat([start], tail);
    AssembledReads(head, e, p, t);
  }

  lemma UnitLines(head: seq<string>, e: seq<string>, p: seq<string>, start: string, tail: seq<string>)
    requires AllFlat(head) && AllFlat(e) && AllFlat(p) && Flat(start) && AllFlat(tail)
    ensures SplitLines(UnLines(head) + (UnLines(e) + (UnLines(p) + (start + ("\n" + UnLines(tail))))))
         == head + (e + (p + ([start] + tail)))
  {
    var rest := start + ("\n" + UnLines(tail));
    SplitUnLines(tail, "");
    assert UnLines(tail) + "" == UnLines(tail) && tail + [] == tail;
    FirstLine(start, UnLines(tail));
    SplitUnLines(p, rest);
    SplitUnLines(e, UnLines(p) + rest);
    SplitUnLines(head, UnLines(e) + (UnLines(p) + rest));
  }

  // ---- what a reader can never recover ----------------------------------------------

  /** All that a line-based reader ever yields. */
  predicate Recoverable(d: Directive) {
    match d
    case Env(key, value) => Flat(key) && Flat(value) && Splittable((key, value))
    case Pre(command) => Flat(command)
    case Start(command) => Flat(command)
  }

  lemma {:induction false} SplitLinesFlat(s: string)
    ensures AllFlat(SplitLines(s))
    decreases |s|
  {
    if s != "" {
      var n := LineEnd(s);
      if n < |s| { SplitLinesFlat(s[n + 1..]); }
    }
  }

  lemma {:induction false} FoldFlat(ls: seq<string>)
    requires AllFlat(ls)
    ensures AllFlat(Fold(ls))
  {
    if ls != [] {
      var done, l := Fold(ls[..|ls| - 1]), ls[|ls| - 1];
      FoldFlat(ls[..|ls| - 1]);
      if done != [] { FlatConcat(done[|done| - 1], l); }
    }
  }

  lemma ReadLineRecoverable(l: string)
    requires Flat(l) && ReadLine(l).Some?
    ensures Recoverable(ReadLine(l).value)
  {
    if StartsWith(l, ENVIRONMENT) {
      var r := l[|ENVIRONMENT|..];
      var q := Find(r, '"');
      var e := Find(r[..q], '=');
      assert r[..e] == r[..q][..e];
      assert forall c :: c in r[..e] ==> c in r[..q];
      assert forall c :: c in r[e + 1..q] ==> c in r[..q];
    }
  }

  lemma {:induction false} ReadAllRecoverable(ls: seq<string>)
    requires AllFlat(ls)
    ensures forall d :: d in ReadAll(ls) ==> Recoverable(d)
  {
    if ls != [] {
      ReadAllRecoverable(ls[1..]);
      if ReadLine(ls[0]).Some? { ReadLineRecoverable(ls[0]); }
    }
  }

  lemma ReadRecoverable(unit: string)
    ensures forall d :: d in Read(unit) ==> Recoverable(d)
  {
    SplitLinesFlat(unit);
    FoldFlat(SplitLines(unit));
    ReadAllRecoverable(Fold(SplitLines(unit)));
  }

  lemma {:induction false} JoinedFlat(args: seq<string>)
    ensures Flat(Joined(args)) <==> forall j :: 0 <= j < |args| ==> Flat(args[j])
  {
    if |args| > 1 {
      JoinedFlat(args[1..]);
      FlatConcat(args[0] + " ", Joined(args[1..]));
      FlatConcat(args[0], " ");
      assert forall j :: 0 < j < |args| ==> args[j] == args[1..][j - 1];
      assert forall j :: 0 <= j < |args| - 1 ==> args[1..][j] == args[j + 1];
    }
  }

  lemma CommandFlat(bin: string, args: string)
    ensures Flat(Command(bin, args)) <==> Flat(bin) && Flat(args)
  {
    FlatConcat(bin + " ", args);
    FlatConcat(bin, " ");
  }

  function Expected(bin: string, args: string, env: seq<(string, string)>, pre: seq<seq<string>>): seq<Directive> {
    Envs(env) + Pres(bin, pre) + [Start(Command(bin, args))]
  }

  /** The printed unit reads back exactly when commands have no newline and the
      environment has no newline, no double quote and no equals sign in a key. */
  lemma UnitReadsBackIff(component: string, bin: string, args: string, root: string,
                         env: seq<(string, string)>, pre: seq<seq<string>>)
    requires Flat(component) && Flat(root)
    ensures Read(Unit(component, bin, args, root, env, pre)) == Expected(bin, args, env, pre)
       <==> Flat(bin) && Flat(args) && PlainEnv(env) && FlatArgs(pre)
  {
    if Flat(bin) && Flat(args) && PlainEnv(env) && FlatArgs(pre) {
      UnitReadsBack(component, bin, args, root, env, pre);
    }
    if Read(Unit(component, bin, args, root, env, pre)) == Expected(bin, args, env, pre) {
      ReadRecoverable(Unit(component, bin, args, root, env, pre));
      ExpectedRecoverable(bin, args, env, pre);
    }
  }

  lemma ExpectedRecoverable(bin: string, args: string, env: seq<(string, string)>, pre: seq<seq<string>>)
    requires forall d :: d in Expected(bin, args, env, pre) ==> Recoverable(d)
    ensures Flat(bin) && Flat(args) && PlainEnv(env) && FlatArgs(pre)
  {
    var ds := Expected(bin, args, env, pre);
    assert ds[|ds| - 1] == Start(Command(bin, args)) && ds[|ds| - 1] in ds;
    CommandFlat(bin, args);
    forall i | 0 <= i < |env| ensures Plain(env[i].0) && Plain(env[i].1) && '=' !in env[i].0 {
      assert ds[i] == Env(env[i].0, env[i].1) && ds[i] in ds;
    }
    forall i, j | 0 <= i < |pre| && 0 <= j < |pre[i]| ensures Flat(pre[i][j]) {
      assert ds[|env| + i] == Pre(Command(bin, Joined(pre[i]))) && ds[|env| + i] in ds;
      CommandFlat(bin, Joined(pre[i]));
      JoinedFlat(pre[i]);
    }
  }

  /** A key with an equals sign is ambiguous for every reader: two different
      environments print the same unit. */
  lemma EqualsInKeyIsAmbiguous(component: string, bin: string, args: string, root: string,
                               pre: seq<seq<string>>, a: string, b: string, c: string)
    ensures (a + "=" + b, c) != (a, b + "=" + c)
    ensures Unit(component, bin, args, root, [(a + "=" + b, c)], pre)
         == Unit(component, bin, args, root, [(a, b + "=" + c)], pre)
  {
    var u, v := (a + "=" + b, c), (a, b + "=" + c);
    assert |u.0| > |v.0|;
    assert a + "=" + b + ("=" + (c + "\"")) == a + ("=" + (b + "=" + c + "\""));
    assert EnvLine(u) == EnvLine(v);
    assert EnvBlock([u]) == EnvLine(u) + ("\n" + EnvBlock([])) by { assert [u][1..] == []; }
    assert EnvBlock([v]) == EnvLine(v) + ("\n" + EnvBlock([])) by { assert [v][1..] == []; }
  }

  // ---- the text in full --------------------------------------------------------------

  /** What the reader recovers, directive by directive. */
  lemma ExpectedDirectives(bin: string, args: string, env: seq<(string, string)>, pre: seq<seq<string>>)
    ensures var ds := Expected(bin, args, env, pre);
      && |ds| == |env| + |pre| + 1
      && (forall i :: 0 <= i < |env| ==> ds[i] == Env(env[i].0, env[i].1))
      && (forall i :: 0 <= i < |pre| ==> ds[|env| + i] == Pre(bin + " " + Joined(pre[i])))
      && ds[|env| + |pre|] == Start(bin + " " + args)
  {
    var e, p := Envs(env), Pres(bin, pre);
    var ds := Expected(bin, args, env, pre);
    forall i | 0 <= i < |env| ensures ds[i] == Env(env[i].0, env[i].1) { assert ds[i] == e[i]; }
    forall i | 0 <= i < |pre| ensures ds[|env| + i] == Pre(bin + " " + Joined(pre[i])) { assert ds[|env| + i] == p[i]; }
  }

  /** The words of a text between its blanks. */
  function Words(s: string): (r: seq<string>)
    ensures |r| > 0
  {
    if s == "" then [""]
    else
      var r := Words(s[1..]);
      if s[0] == ' ' then [""] + r else [[s[0]] + r[0]] + r[1..]
  }

  lemma {:induction false} OneWord(a: string, rest: string)
    requires ' ' !in a
    ensures Words(a) == [a] && Words(a + (" " + rest)) == [a] + Words(rest)
  {
    var s := a + (" " + rest);
    if a == "" {
      assert s == " " + rest && s[1..] == rest;
    } else {
      OneWord(a[1..], rest);
      assert s[1..] == a[1..] + (" " + rest) && [a[0]] + a[1..] == a;
    }
  }

  /** Arguments without blanks are joined so that they can be told apart again. */
  lemma {:induction false} WordsJoined(args: seq<string>)
    requires args != [] && forall i :: 0 <= i < |args| ==> ' ' !in args[i]
    ensures Words(Joined(args)) == args
  {
    if |args| == 1 {
      OneWord(args[0], "");
    } else {
      OneWord(args[0], Joined(args[1..]));
      WordsJoined(args[1..]);
      assert args[0] + " " + Joined(args[1..]) == args[0] + (" " + Joined(args[1..]));
      assert args == [args[0]] + args[1..];
    }
  }

  /** The lines of a printed unit. */
  lemma UnitText(component: string, bin: string, args: string, root: string,
                 env: seq<(string, string)>, pre: seq<seq<string>>)
    requires Flat(component) && Flat(bin) && Flat(args) && Flat(root) && PlainEnv(env) && FlatArgs(pre)
    ensures var head := [
        "[Unit]", "Description=Computeza-managed " + component, "After=network-online.target",
        "Wants=network-online.target", "", "[Service]", "Type=simple", "WorkingDirectory=" + root,
        "RuntimeDirectory=" + component, "RuntimeDirectoryMode=0755"];
      var tail := [
        "Restart=on-failure", "RestartSec=5", "NoNewPrivileges=yes", "PrivateTmp=yes", "ProtectSystem=strict",
        "ProtectHome=yes", "ReadWritePaths=" + root, "", "[Install]", "WantedBy=multi-user.target"];
      SplitLines(Unit(component, bin, args, root, env, pre))
        == head + (EnvLines(env) + (PreLines(bin, pre) + (["ExecStart=" + (bin + " " + args)] + tail)))
  {
    EnvBlockReads(env);
    PreBlockReads(bin, pre);
    CommandFlat(bin, args);
    StartLine(Command(bin, args));
    HeadReads(component, root);
    TailReads(root);
    UnitLines(HeadLines(component, root), EnvLines(env), PreLines(bin, pre), START + Command(bin, args), TailLines(root));
  }

  lemma {:induction false} DirectiveText(bin: string, env: seq<(string, string)>, pre: seq<seq<string>>)
    ensures |EnvLines(env)| == |env| && |PreLines(bin, pre)| == |pre|
    ensures forall i :: 0 <= i < |env| ==>
      EnvLines(env)[i] == "Environment=\"" + (env[i].0 + ("=" + (env[i].1 + "\"")))
    ensures forall i :: 0 <= i < |pre| ==> PreLines(bin, pre)[i] == "ExecStartPre=" + (bin + " " + Joined(pre[i]))
    decreases |env| + |pre|
  {
    if env != [] { DirectiveText(bin, env[1..], []); }
    if pre != [] { DirectiveText(bin, [], pre[1..]); }
  }
}
