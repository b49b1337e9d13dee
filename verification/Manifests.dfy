/** The manifest of a package before and after a change, as `scripts/checks/classify-changes.ts` compares them: which
    scripts changed, and which scripts the command of a script runs. */
module Manifests {
  import opened Alphabets
  import opened Lists
  import opened Options
  import opened Strings
  import opened Closures
  import opened Graphs

  // --- The scripts that a command runs ----------------------------------------------------------------------

  const RUN := "npm run "
  const TEST := "npm test"

  /** `[\w:-]`. */
  predicate ScriptChar(c: char) {
    IsWord(c) || c == ':' || c == '-'
  }

  lemma ScriptChars(c: char)
    ensures ScriptChar(c) <==> WordChar(c) || c == ':' || c == '-'
  {
    hide WordChar;
    WordIs(c);
  }

  function ScriptRun(s: string, i: nat): (n: nat)
    requires i <= |s|
    ensures i + n <= |s|
    decreases |s| - i
  {
    if i == |s| || !ScriptChar(s[i]) then 0 else 1 + ScriptRun(s, i + 1)
  }

  /** `\b` behind a character. */
  predicate EdgeAt(s: string, k: nat)
    requires 0 < k <= |s|
  {
    IsWord(s[k - 1]) != (k < |s| && IsWord(s[k]))
  }

  /** The longest piece of at most `n` characters from `i` on that ends at an edge, or 0. */
  function LastEdge(s: string, i: nat, n: nat): (m: nat)
    requires i + n <= |s|
    ensures m <= n
  {
    if n == 0 || EdgeAt(s, i + n) then n else LastEdge(s, i, n - 1)
  }

  /** The match of `/npm (?:run ([\w:-]+)|(test))\b/` at the start of `s`: the name it captures and its length. */
  function CallOf(s: string): (call: Option<(string, nat)>)
    ensures call.Some? ==> 0 < call.value.1 <= |s|
  {
    if RUN <= s then
      var m := LastEdge(s, |RUN|, ScriptRun(s, |RUN|));
      if m == 0 then None else Some((s[|RUN|..|RUN| + m], |RUN| + m))
    else if TEST <= s && EdgeAt(s, |TEST|) then Some(("test", |TEST|))
    else None
  }

  /** The names that `matchAll` finds. */
  function Runs(command: string): set<string>
    decreases |command|
  {
    if command == "" then {}
    else
      match CallOf(command)
      case None => Runs(command[1..])
      case Some((name, length)) => {name} + Runs(command[length..])
  }

  // --- Commands as they are written -------------------------------------------------------------------------

  /** A step of a command: a script, the script for tests, or some other program. */
  datatype Step = RunScript(name: string, args: string) | RunTest(args: string) | Other(text: string)

  predicate NoNpm(t: string) {
    forall k | 0 <= k < |t| :: !Stands(t, k, "npm")
  }

  predicate ArgsOk(args: string) {
    args == "" || (args[0] == ' ' && NoNpm(args))
  }

  /** A name ends in a letter, a digit or an underscore. */
  predicate StepOk(step: Step) {
    match step
    case RunScript(name, args) =>
      name != "" && (forall c | c in name :: ScriptChar(c)) && IsWord(name[|name| - 1]) && ArgsOk(args)
    case RunTest(args) => ArgsOk(args)
    case Other(text) => NoNpm(text)
  }

  function StepText(step: Step): string {
    match step
    case RunScript(name, args) => RUN + name + args
    case RunTest(args) => TEST + args
    case Other(text) => text
  }

  function StepNames(step: Step): set<string> {
    match step
    case RunScript(name, _) => {name}
    case RunTest(_) => {"test"}
    case Other(_) => {}
  }

  const AND := " && "

  function CommandText(steps: seq<Step>): string {
    if steps == [] then ""
    else if |steps| == 1 then StepText(steps[0])
    else StepText(steps[0]) + (AND + CommandText(steps[1..]))
  }

  function CommandNames(steps: seq<Step>): set<string> {
    if steps == [] then {} else StepNames(steps[0]) + CommandNames(steps[1..])
  }

  lemma NothingFound(s: string)
    requires s != "" && CallOf(s) == None
    ensures Runs(s) == Runs(s[1..])
  {
    hide CallOf;
  }

  lemma CallFound(s: string, name: string, rest: string)
    requires CallOf(s) == Some((name, |s| - |rest|)) && |rest| <= |s| && s[|s| - |rest|..] == rest
    ensures Runs(s) == {name} + Runs(rest)
  {
    hide CallOf;
    assert s != "";
  }

  lemma ShiftedStands(s: string, k: nat)
    requires s != "" && !Stands(s, k + 1, "npm")
    ensures !Stands(s[1..], k, "npm")
  {
    assert k + 4 <= |s| ==> s[k + 1..k + 4] == s[1..][k..k + 3];
  }

  /** Where no `npm` begins nothing is found. */
  lemma {:induction false} SkipText(t: string, rest: string)
    requires forall k | 0 <= k < |t| :: !Stands(t + rest, k, "npm")
    ensures Runs(t + rest) == Runs(rest)
    decreases |t|
  {
    hide Runs, CallOf, Stands;
    var s := t + rest;
    if t == "" {
      assert s == rest;
    } else {
      assert s[1..] == t[1..] + rest;
      NoCallHere(s);
      NothingFound(s);
      forall k | 0 <= k < |t[1..]| ensures !Stands(t[1..] + rest, k, "npm") {
        ShiftedStands(s, k);
      }
      SkipText(t[1..], rest);
    }
  }

  lemma NoCallHere(s: string)
    requires !Stands(s, 0, "npm")
    ensures CallOf(s) == None
  {
    CallStands(s);
  }

  lemma CallStands(s: string)
    ensures CallOf(s).Some? ==> Stands(s, 0, "npm")
  {
    if CallOf(s).Some? {
      assert s[0..3] == if RUN <= s then RUN[..3] else TEST[..3];
    }
  }

  predicate Ahead(rest: string) {
    rest == "" || rest[0] == ' '
  }

  lemma SkipPlain(t: string, rest: string)
    requires NoNpm(t) && Ahead(rest)
    ensures Runs(t + rest) == Runs(rest)
  {
    forall k | 0 <= k < |t| ensures !Stands(t + rest, k, "npm") {
      NpmIsWithin(t, rest, k);
    }
    SkipText(t, rest);
  }

  lemma NpmIsWithin(t: string, rest: string, k: nat)
    requires Ahead(rest) && k < |t|
    ensures Stands(t + rest, k, "npm") ==> Stands(t, k, "npm")
  {
    var s := t + rest;
    if k + 3 <= |t| {
      assert s[k..k + 3] == t[k..k + 3];
    } else if k + 3 <= |s| {
      assert s[k..k + 3][|t| - k] == ' ' != "npm"[|t| - k];
    }
  }

  lemma SkipAnd(rest: string)
    ensures Runs(AND + rest) == Runs(rest)
  {
    forall k | 0 <= k < |AND| ensures !Stands(AND + rest, k, "npm") {
      var s := AND + rest;
      assert s[k] == AND[k] != 'n';
      assert k + 3 <= |s| ==> s[k..k + 3][0] == s[k];
    }
    SkipText(AND, rest);
  }

  lemma SkipArgs(args: string, rest: string)
    requires ArgsOk(args) && Ahead(rest)
    ensures Runs(args + rest) == Runs(rest) && Ahead(args + rest)
  {
    if args == "" {
      assert args + rest == rest;
    } else {
      SkipPlain(args, rest);
    }
  }

  lemma {:induction false} ScriptRunIs(s: string, i: nat, n: nat)
    requires i + n <= |s| && (i + n < |s| ==> !ScriptChar(s[i + n]))
    requires forall k | i <= k < i + n :: ScriptChar(s[k])
    ensures ScriptRun(s, i) == n
    decreases n
  {
    if n > 0 {
      ScriptRunIs(s, i + 1, n - 1);
    }
  }

  lemma CallIsRead(name: string, rest: string)
    requires StepOk(RunScript(name, "")) && Ahead(rest)
    ensures CallOf(RUN + name + rest) == Some((name, |RUN| + |name|))
  {
    var s := RUN + name + rest;
    forall k | |RUN| <= k < |RUN| + |name| ensures ScriptChar(s[k]) {
      assert s[k] == name[k - |RUN|];
    }
    ScriptRunIs(s, |RUN|, |name|);
    assert s[|RUN| + |name| - 1] == name[|name| - 1];
    assert EdgeAt(s, |RUN| + |name|);
    assert s[|RUN|..|RUN| + |name|] == name;
  }

  lemma TestIsRead(rest: string)
    requires Ahead(rest)
    ensures CallOf(TEST + rest) == Some(("test", |TEST|))
  {
    var s := TEST + rest;
    assert s[4] == TEST[4] == 't' && s[7] == TEST[7] == 't';
    assert !(RUN <= s) by {
      assert s[4] != RUN[4];
    }
  }

  lemma ScriptIsRead(name: string, args: string, rest: string)
    requires StepOk(RunScript(name, args)) && Ahead(rest)
    ensures Runs(RUN + name + args + rest) == {name} + Runs(rest)
  {
    hide Runs, CallOf, NoNpm;
    SkipArgs(args, rest);
    var s := RUN + name + (args + rest);
    assert RUN + name + args + rest == s;
    CallIsRead(name, args + rest);
    CallFound(s, name, args + rest);
  }

  lemma TestStepIsRead(args: string, rest: string)
    requires ArgsOk(args) && Ahead(rest)
    ensures Runs(TEST + args + rest) == {"test"} + Runs(rest)
  {
    hide Runs, CallOf, NoNpm;
    SkipArgs(args, rest);
    var s := TEST + (args + rest);
    assert TEST + args + rest == s;
    TestIsRead(args + rest);
    CallFound(s, "test", args + rest);
  }

  lemma StepIsRead(step: Step, rest: string)
    requires StepOk(step) && Ahead(rest)
    ensures Runs(StepText(step) + rest) == StepNames(step) + Runs(rest)
  {
    hide Runs, NoNpm;
    match step
    case RunScript(name, args) => ScriptIsRead(name, args, rest);
    case RunTest(args) => TestStepIsRead(args, rest);
    case Other(text) => SkipPlain(text, rest);
  }

  /** Of a command written as steps joined by `&&`, exactly the scripts that its steps name are found. */
  lemma {:induction false} CommandIsRead(steps: seq<Step>)
    requires forall step | step in steps :: StepOk(step)
    ensures Runs(CommandText(steps)) == CommandNames(steps)
    decreases |steps|
  {
    if |steps| == 1 {
      StepIsRead(steps[0], "");
      assert StepText(steps[0]) + "" == StepText(steps[0]);
    } else if steps != [] {
      CommandIsRead(steps[1..]);
      SkipAnd(CommandText(steps[1..]));
      StepIsRead(steps[0], AND + CommandText(steps[1..]));
    }
  }

  lemma {:induction false} NoEdgeNoWord(s: string, i: nat, n: nat)
    requires i + n <= |s| && LastEdge(s, i, n) == 0 && (i + n < |s| ==> !IsWord(s[i + n]))
    ensures forall k | i <= k < i + n :: !IsWord(s[k])
    decreases n
  {
    if n > 0 {
      NoEdgeNoWord(s, i, n - 1);
    }
  }

  /** Without a letter in it a name is not found at all. */
  lemma WordlessIsNotFound(name: string)
    requires name != "" && forall k | 0 <= k < |name| :: !IsWord(name[k])
    ensures Runs(RUN[1..] + name) == {}
  {
    hide Runs;
    var s := RUN[1..] + name;
    forall k | 0 <= k < |s| ensures !Stands(s + "", k, "npm") {
      assert s + "" == s;
      assert s[k] == if k < 7 then RUN[k + 1] else name[k - 7];
      assert k + 3 <= |s| ==> s[k..k + 3][0] == s[k] && s[k..k + 3][1] == s[k + 1];
      assert k == 5 ==> s[k + 1] == RUN[7] == ' ';
    }
    SkipText(s, "");
    assert s + "" == s;
    NothingInNothing();
  }

  lemma NothingInNothing()
    ensures Runs("") == {}
  {
  }

  lemma ScriptRunOf(name: string)
    requires forall c | c in name :: ScriptChar(c)
    ensures ScriptRun(RUN + name, |RUN|) == |name|
  {
    hide ScriptChar;
    forall k | |RUN| <= k < |RUN + name| ensures ScriptChar((RUN + name)[k]) {
      assert (RUN + name)[k] == name[k - |RUN|];
    }
    ScriptRunIs(RUN + name, |RUN|, |name|);
  }

  lemma NoEdgeAtEnd(name: string)
    requires name != "" && !IsWord(name[|name| - 1])
    ensures LastEdge(RUN + name, |RUN|, |name|) < |name|
  {
    var s := RUN + name;
    assert s[|s| - 1] == name[|name| - 1] && !EdgeAt(s, |s|);
  }

  lemma CallOfRun(s: string, m: nat)
    requires RUN <= s && m == LastEdge(s, |RUN|, ScriptRun(s, |RUN|))
    ensures CallOf(s) == if m == 0 then None else Some((s[|RUN|..|RUN| + m], |RUN| + m))
  {
    hide ScriptRun, LastEdge, EdgeAt;
  }

  lemma CapturedName(name: string, m: nat)
    requires m <= |name|
    ensures (RUN + name)[|RUN|..|RUN| + m] == name[..m]
  {
  }

  lemma CutCall(name: string, m: nat)
    requires name != "" && (forall c | c in name :: ScriptChar(c)) && !IsWord(name[|name| - 1])
    requires m == LastEdge(RUN + name, |RUN|, |name|)
    ensures m < |name|
    ensures CallOf(RUN + name) == if m == 0 then None else Some((name[..m], |RUN| + m))
  {
    hide ScriptRun, ScriptChar, LastEdge, IsWord, CallOf, EdgeAt;
    ScriptRunOf(name);
    NoEdgeAtEnd(name);
    CallOfRun(RUN + name, m);
    CapturedName(name, m);
  }

  lemma FoundFirst(s: string, name: string, n: nat)
    requires n <= |s| && CallOf(s) == Some((name, n))
    ensures name in Runs(s)
  {
    hide CallOf;
    CallFound(s, name, s[n..]);
  }

  lemma NoWordIn(name: string)
    requires LastEdge(RUN + name, |RUN|, |name|) == 0
    ensures forall k | 0 <= k < |name| :: !IsWord(name[k])
  {
    hide LastEdge;
    NoEdgeNoWord(RUN + name, |RUN|, |name|);
    assert forall k | 0 <= k < |name| :: name[k] == (RUN + name)[|RUN| + k];
  }

  /** What is found of a name that does not end in a letter is not that name. */
  lemma CutName(name: string)
    requires name != "" && (forall c | c in name :: ScriptChar(c)) && !IsWord(name[|name| - 1])
    ensures Runs(RUN + name) != {name}
  {
    hide Runs, CallOf, LastEdge, ScriptChar, IsWord;
    var m := LastEdge(RUN + name, |RUN|, |name|);
    CutCall(name, m);
    if m > 0 {
      FoundFirst(RUN + name, name[..m], |RUN| + m);
      assert |name[..m]| != |name|;
    } else {
      NoWordIn(name);
      assert (RUN + name)[1..] == RUN[1..] + name;
      NothingFound(RUN + name);
      WordlessIsNotFound(name);
    }
  }

  /** A name is found as it is written exactly if it ends in a letter, a digit or an underscore. */
  lemma NameIsRead(name: string)
    requires name != "" && forall c | c in name :: ScriptChar(c)
    ensures Runs(RUN + name) == {name} <==> IsWord(name[|name| - 1])
  {
    hide Runs;
    if IsWord(name[|name| - 1]) {
      ScriptIsRead(name, "", "");
      assert RUN + name + "" + "" == RUN + name;
      NothingInNothing();
    } else {
      CutName(name);
    }
  }

  /** A name that ends in a colon is cut. */
  lemma ColonIsCut()
    ensures Runs("npm run i18n:") == {"i18n"}
  {
    var s := "npm run i18n:";
    ScriptRunIs(s, 8, 5);
    assert !EdgeAt(s, 13) && EdgeAt(s, 12);
    assert s[8..12] == "i18n" && s[12..] == ":" && ":"[1..] == "";
    NoCallHere(":");
  }

  // --- Two manifests ------------------------------------------------------------------------------------------

  datatype Named = Named(name: string, command: string)

  function NamesOf(scripts: seq<Named>): (names: seq<string>)
    ensures |names| == |scripts|
  {
    seq(|scripts|, i requires 0 <= i < |scripts| => scripts[i].name)
  }

  /** An object of scripts, in the order of its keys. */
  type Scripts = s: seq<Named> | Distinct(NamesOf(s))

  /** All fields but the scripts, and the scripts; none if there is no such field. A field stands for its JSON value,
      as far as deep equality tells values apart. */
  datatype Package = Package(fields: map<string, string>, scripts: Scripts)

  function CommandOf(scripts: seq<Named>, name: string): (command: Option<string>)
    ensures command.Some? <==> exists i :: 0 <= i < |scripts| && scripts[i].name == name
  {
    if scripts == [] then None
    else if scripts[0].name == name then Some(scripts[0].command)
    else
      var rest := CommandOf(scripts[1..], name);
      assert forall i | 0 < i < |scripts| :: scripts[i] == scripts[1..][i - 1];
      assert rest.Some? ==> exists i :: 0 < i < |scripts| && scripts[i].name == name by {
        if j :| 0 <= j < |scripts[1..]| && scripts[1..][j].name == name {
          assert scripts[j + 1].name == name;
        }
      }
      rest
  }

  /** The command of a script is the one that its object lists. */
  lemma CommandIs(scripts: Scripts, name: string, command: string)
    ensures CommandOf(scripts, name) == Some(command) <==> Named(name, command) in scripts
  {
    hide CommandOf;
    CommandStands(scripts, name);
    var names := NamesOf(scripts);
    if Named(name, command) in scripts && CommandOf(scripts, name).Some? {
      var i :| 0 <= i < |scripts| && scripts[i] == Named(name, command);
      var j :| 0 <= j < |scripts| && scripts[j] == Named(name, CommandOf(scripts, name).value);
      assert names[i] == names[j];
    }
  }

  lemma {:induction false} CommandStands(scripts: seq<Named>, name: string)
    ensures CommandOf(scripts, name).Some? ==> Named(name, CommandOf(scripts, name).value) in scripts
    ensures CommandOf(scripts, name) == None ==> forall s | s in scripts :: s.name != name
    decreases |scripts|
  {
    if scripts != [] && scripts[0].name != name {
      CommandStands(scripts[1..], name);
      assert forall s :: s in scripts <==> s == scripts[0] || s in scripts[1..];
    }
  }

  predicate Differs(before: Package, after: Package, name: string) {
    CommandOf(before.scripts, name) != CommandOf(after.scripts, name)
  }

  /** The names in `keys` of scripts that were added, removed or changed, behind those of `seen`. */
  method ChangedAmong(before: Package, after: Package, keys: Scripts, seen: seq<string>)
    returns (changed: seq<string>)
    requires Distinct(seen)
    ensures Distinct(changed)
    ensures forall n :: n in changed <==> n in seen || (CommandOf(keys, n).Some? && Differs(before, after, n))
  {
    hide Differs, CommandOf;
    changed := seen;
    var i := 0;
    while i < |keys|
      invariant 0 <= i <= |keys| && Distinct(changed)
      invariant forall n :: n in changed <==>
        n in seen || (Differs(before, after, n) && exists j :: 0 <= j < i && keys[j].name == n)
    {
      var name := keys[i].name;
      if Differs(before, after, name) && name !in changed {
        changed := changed + [name];
      }
      i := i + 1;
    }
    forall n ensures CommandOf(keys, n).Some? <==> exists j :: 0 <= j < |keys| && keys[j].name == n {
    }
  }

  /** The scripts that are not the same before and after. */
  method ChangedScripts(before: Package, after: Package) returns (changed: seq<string>)
    ensures Distinct(changed) && forall n :: n in changed <==> Differs(before, after, n)
  {
    changed := ChangedAmong(before, after, before.scripts, []);
    changed := ChangedAmong(before, after, after.scripts, changed);
  }

  /** Every script of both manifests, with what its command runs. */
  function AllScripts(before: Package, after: Package): seq<Script> {
    Calls(before.scripts) + Calls(after.scripts)
  }

  function Calls(scripts: seq<Named>): (r: seq<Script>)
    ensures |r| == |scripts|
  {
    seq(|scripts|, i requires 0 <= i < |scripts| => Script(scripts[i].name, Runs(scripts[i].command)))
  }

  /** A script stands in `scripts` whose command runs `name`. */
  ghost predicate CalledIn(scripts: Scripts, caller: string, name: string) {
    exists s :: s in scripts && s.name == caller && name in Runs(s.command)
  }

  /** The callers of a script are those before and those after. */
  lemma CallersAre(before: Package, after: Package, caller: string, name: string)
    ensures caller in Succ(CallGraph(AllScripts(before, after)), name) <==>
      CalledIn(before.scripts, caller, name) || CalledIn(after.scripts, caller, name)
  {
    hide CallGraph, Runs;
    var all := AllScripts(before, after);
    CallGraphIsCallers(all, name, caller);
    CallsAre(before.scripts, caller, name);
    CallsAre(after.scripts, caller, name);
    assert forall s :: s in all <==> s in Calls(before.scripts) || s in Calls(after.scripts);
  }

  lemma CallsAre(scripts: Scripts, caller: string, name: string)
    ensures CalledIn(scripts, caller, name) <==>
      exists c :: c in Calls(scripts) && c.caller == caller && name in c.runs
  {
    hide Runs;
    var calls := Calls(scripts);
    if c :| c in calls && c.caller == caller && name in c.runs {
      var i :| 0 <= i < |calls| && calls[i] == c;
      assert scripts[i] in scripts;
    }
    if s :| s in scripts && s.name == caller && name in Runs(s.command) {
      var i :| 0 <= i < |scripts| && scripts[i] == s;
      assert calls[i] in calls;
    }
  }
}
