/** The NPSS wrapper component's command-line handling: the token-driven
    parser of its argument list (eight "value expected next" flags), the
    generator that turns the option fields back into an argument list,
    the metadata merge helper and the output guard of an NPSS trait. */
module NpssArgs {
  import opened Results
  import Strings

  /** The option fields of an NPSS component that the argument list sets. */
  datatype Options = Options(
    modelFilename: string,
    includeDirs: seq<string>,
    useDefaultPaths: bool,
    preprocessorVars: map<string, string>,
    preloadedDlms: seq<string>,
    iclodFirst: bool,
    noDclod: bool,
    noIclod: bool,
    useCorba: bool,
    outputFilename: string,
    traceExecution: bool,
    assemblyType: string,
    executiveType: string,
    preloadedObjs: seq<string>,
    useSolver: bool,
    useConstants: bool,
    access: string,
    autodoc: bool,
    nsIor: string)

  /** Field defaults of a freshly created component. */
  function Defaults(): Options {
    Options("", [], true, map[], [], false, false, false, false, "", false,
            "", "", [], true, true, "", false, "")
  }

  /** The eight "value expected next" flags. */
  datatype Pending = Pending(
    accessNext: bool, assemblyNext: bool, dlmNext: bool, executiveNext: bool,
    includeNext: bool, nsNext: bool, objNext: bool, preprocNext: bool)

  const NoPending := Pending(false, false, false, false, false, false, false, false)

  datatype ParseState = ParseState(opts: Options, pend: Pending)

  /** The argument list is either one string, split on whitespace, or a
      list of tokens. */
  datatype ArgList = Text(s: string) | List(items: seq<string>)

  /** Every error the parser raises; each names the offending token where
      the message of `_parse_arglist` does. */
  datatype ArgError =
    | ObjectMissing(arg: string)
    | IncludeMissing(arg: string)
    | InvalidAccess(arg: string)
    | DlmMissing(arg: string)
    | NameServerMissing(arg: string)
    | IllegalOption(arg: string)
    | ModelMissing(arg: string)
    | ExpectedAccess
    | ExpectedAssembly
    | ExpectedDlm
    | ExpectedExecutive
    | ExpectedInclude
    | ExpectedNameServer
    | ExpectedObject
    | ExpectedPreproc
  {
    predicate NamesToken() {
      ObjectMissing? || IncludeMissing? || InvalidAccess? || DlmMissing? ||
      NameServerMissing? || IllegalOption? || ModelMissing?
    }

    predicate PathRejected() {
      ObjectMissing? || IncludeMissing? || DlmMissing? || NameServerMissing? || ModelMissing?
    }
  }

  /** Every option word the parser recognises. */
  const Keywords: set<string> := {
    "-C", "-D", "-E", "-I", "-X", "-a", "-autodoc", "-corba", "-iclodfirst",
    "-l", "-noconstants", "-noDefPaths", "-nodclod", "-noiclod", "-nosolver",
    "-ns", "-trace"}

  const AccessTypes: set<string> := {"PRIV", "RO", "RW"}

  /** The name and value of a `-D` definition: the text up to the first
      `=` and the text between the first and a second `=`, or `"1"` when
      there is no `=` at all. */
  function DefineOf(arg: string): (d: (string, string))
    ensures Strings.IndexOf(arg, '=') < 0 ==> d == (arg, "1")
    ensures Strings.IndexOf(arg, '=') >= 0 ==>
      var i := Strings.IndexOf(arg, '=');
      var rest := arg[i + 1..];
      var j := Strings.IndexOf(rest, '=');
      d.0 == arg[..i] && d.1 == (if j < 0 then rest else rest[..j])
  {
    Strings.SplitShape(arg, '=');
    var items := Strings.Split(arg, '=');
    (items[0], if |items| > 1 then items[1] else "1")
  }

  /** The option words, one constructor each. */
  datatype Word =
    | WObj | WDefine | WExecutive | WInclude | WAssembly | WAccess | WAutodoc | WCorba
    | WIclodFirst | WDlm | WNoConstants | WNoDefPaths | WNoDclod | WNoIclod | WNoSolver
    | WNameServer | WTrace

  function WordText(w: Word): string {
    match w
    case WObj => "-C"
    case WDefine => "-D"
    case WExecutive => "-E"
    case WInclude => "-I"
    case WAssembly => "-X"
    case WAccess => "-a"
    case WAutodoc => "-autodoc"
    case WCorba => "-corba"
    case WIclodFirst => "-iclodfirst"
    case WDlm => "-l"
    case WNoConstants => "-noconstants"
    case WNoDefPaths => "-noDefPaths"
    case WNoDclod => "-nodclod"
    case WNoIclod => "-noiclod"
    case WNoSolver => "-nosolver"
    case WNameServer => "-ns"
    case WTrace => "-trace"
  }

  /** Which option word a token is, if any. */
  function WordOf(arg: string): (r: Option<Word>)
    ensures r.None? <==> arg !in Keywords
    ensures r.Some? ==> WordText(r.value) == arg
  {
    if arg == "-C" then Some(WObj)
    else if arg == "-D" then Some(WDefine)
    else if arg == "-E" then Some(WExecutive)
    else if arg == "-I" then Some(WInclude)
    else if arg == "-X" then Some(WAssembly)
    else if arg == "-a" then Some(WAccess)
    else if arg == "-autodoc" then Some(WAutodoc)
    else if arg == "-corba" then Some(WCorba)
    else if arg == "-iclodfirst" then Some(WIclodFirst)
    else if arg == "-l" then Some(WDlm)
    else if arg == "-noconstants" then Some(WNoConstants)
    else if arg == "-noDefPaths" then Some(WNoDefPaths)
    else if arg == "-nodclod" then Some(WNoDclod)
    else if arg == "-noiclod" then Some(WNoIclod)
    else if arg == "-nosolver" then Some(WNoSolver)
    else if arg == "-ns" then Some(WNameServer)
    else if arg == "-trace" then Some(WTrace)
    else None
  }

  /** Each word's text is recognised as that word. */
  lemma WordOfText(w: Word)
    ensures WordOf(WordText(w)) == Some(w)
  {
  }

  /** The option words that take the next token as their value. */
  datatype Slot = SObj | SDefine | SExecutive | SInclude | SAssembly | SAccess | SDlm | SNameServer

  /** Which branch of the parser takes a token: an option word, the value
      of a pending option, an illegal dash-word or the model file name. */
  datatype Branch = Flag(w: Word) | Value(slot: Slot) | Illegal | Positional

  /** The tests of `_parse_arglist`, in its order: a pending value is taken
      before any option word listed after its own flag, and after every
      option word listed before it. */
  function BranchOf(p: Pending, w: Option<Word>, dash: bool): Branch {
    if w == Some(WObj) then Flag(WObj)
    else if p.objNext then Value(SObj)
    else if w == Some(WDefine) then Flag(WDefine)
    else if p.preprocNext then Value(SDefine)
    else if w == Some(WExecutive) then Flag(WExecutive)
    else if p.executiveNext then Value(SExecutive)
    else if w == Some(WInclude) then Flag(WInclude)
    else if p.includeNext then Value(SInclude)
    else if w == Some(WAssembly) then Flag(WAssembly)
    else if p.assemblyNext then Value(SAssembly)
    else if w == Some(WAccess) then Flag(WAccess)
    else if p.accessNext then Value(SAccess)
    else if w == Some(WAutodoc) then Flag(WAutodoc)
    else if w == Some(WCorba) then Flag(WCorba)
    else if w == Some(WIclodFirst) then Flag(WIclodFirst)
    else if w == Some(WDlm) then Flag(WDlm)
    else if p.dlmNext then Value(SDlm)
    else if w == Some(WNoConstants) then Flag(WNoConstants)
    else if w == Some(WNoDefPaths) then Flag(WNoDefPaths)
    else if w == Some(WNoDclod) then Flag(WNoDclod)
    else if w == Some(WNoIclod) then Flag(WNoIclod)
    else if w == Some(WNoSolver) then Flag(WNoSolver)
    else if w == Some(WNameServer) then Flag(WNameServer)
    else if p.nsNext then Value(SNameServer)
    else if w == Some(WTrace) then Flag(WTrace)
    else if dash then Illegal
    else Positional
  }

  /** A token read while only `slot`'s value is pending is taken as that
      value. */
  predicate TakenAsValue(slot: Slot, v: string) {
    BranchOf(Awaiting(slot), WordOf(v), |v| > 0 && v[0] == '-') == Value(slot)
  }

  /** The option words `_parse_arglist` tests before the pending branch of
      `slot`: with that value pending, these are still read as options. */
  function WordsBefore(slot: Slot): set<string> {
    match slot
    case SObj => {"-C"}
    case SDefine => {"-C", "-D"}
    case SExecutive => {"-C", "-D", "-E"}
    case SInclude => {"-C", "-D", "-E", "-I"}
    case SAssembly => {"-C", "-D", "-E", "-I", "-X"}
    case SAccess => {"-C", "-D", "-E", "-I", "-X", "-a"}
    case SDlm => {"-C", "-D", "-E", "-I", "-X", "-a", "-autodoc", "-corba", "-iclodfirst", "-l"}
    case SNameServer => Keywords - {"-trace"}
  }

  /** A pending value swallows every token except the option words tested
      before it. */
  lemma TakenAsValueIff(slot: Slot, v: string)
    ensures TakenAsValue(slot, v) <==> v !in WordsBefore(slot)
  {
    match WordOf(v)
    case None =>
      AwaitingTakesValue(slot, |v| > 0 && v[0] == '-');
    case Some(w) =>
      assert v == WordText(w);
  }

  /** An option word: the value-taking ones raise their pending flag, the
      switches set their field. */
  function Raise(st: ParseState, w: Word): (r: ParseState)
    ensures r.opts.preloadedObjs == st.opts.preloadedObjs && r.opts.includeDirs == st.opts.includeDirs
    ensures r.opts.preloadedDlms == st.opts.preloadedDlms && r.opts.nsIor == st.opts.nsIor
    ensures r.opts.modelFilename == st.opts.modelFilename && r.opts.access == st.opts.access
    ensures r.opts.outputFilename == st.opts.outputFilename
  {
    var o := st.opts;
    var p := st.pend;
    match w
    case WObj => st.(pend := p.(objNext := true))
    case WDefine => st.(pend := p.(preprocNext := true))
    case WExecutive => st.(pend := p.(executiveNext := true))
    case WInclude => st.(pend := p.(includeNext := true))
    case WAssembly => st.(pend := p.(assemblyNext := true))
    case WAccess => st.(pend := p.(accessNext := true))
    case WAutodoc => st.(opts := o.(autodoc := true))
    case WCorba => st.(opts := o.(useCorba := true))
    case WIclodFirst => st.(opts := o.(iclodFirst := true))
    case WDlm => st.(pend := p.(dlmNext := true))
    case WNoConstants => st.(opts := o.(useConstants := false))
    case WNoDefPaths => st.(opts := o.(useDefaultPaths := false))
    case WNoDclod => st.(opts := o.(noDclod := true))
    case WNoIclod => st.(opts := o.(noIclod := true))
    case WNoSolver => st.(opts := o.(useSolver := false))
    case WNameServer => st.(pend := p.(nsNext := true))
    case WTrace => st.(opts := o.(traceExecution := true))
  }

  /** The value of a pending option: stored (paths only when they exist,
      access types only when valid) and the pending flag cleared. */
  function Store(st: ParseState, slot: Slot, arg: string, pathOk: string -> bool): (r: Result<ParseState, ArgError>)
    ensures r.Err? ==> r.error.NamesToken() && r.error.arg == arg
    ensures r.Err? && r.error.PathRejected() ==> !pathOk(arg)
    ensures r.Ok? ==> r.value.opts.outputFilename == st.opts.outputFilename
    ensures r.Ok? ==> r.value.opts.modelFilename == st.opts.modelFilename
    ensures r.Ok? ==> r.value.opts.access == st.opts.access || r.value.opts.access in AccessTypes
    ensures r.Ok? ==> var o := r.value.opts;
      && (o.preloadedObjs == st.opts.preloadedObjs || (pathOk(arg) && o.preloadedObjs == st.opts.preloadedObjs + [arg]))
      && (o.includeDirs == st.opts.includeDirs || (pathOk(arg) && o.includeDirs == st.opts.includeDirs + [arg]))
      && (o.preloadedDlms == st.opts.preloadedDlms || (pathOk(arg) && o.preloadedDlms == st.opts.preloadedDlms + [arg]))
      && (o.nsIor == st.opts.nsIor || (pathOk(arg) && o.nsIor == arg))
  {
    var o := st.opts;
    var p := st.pend;
    match slot
    case SObj =>
      if pathOk(arg) then Ok(ParseState(o.(preloadedObjs := o.preloadedObjs + [arg]), p.(objNext := false)))
      else Err(ObjectMissing(arg))
    case SDefine =>
      var d := DefineOf(arg);
      Ok(ParseState(o.(preprocessorVars := o.preprocessorVars[d.0 := d.1]), p.(preprocNext := false)))
    case SExecutive => Ok(ParseState(o.(executiveType := arg), p.(executiveNext := false)))
    case SInclude =>
      if pathOk(arg) then Ok(ParseState(o.(includeDirs := o.includeDirs + [arg]), p.(includeNext := false)))
      else Err(IncludeMissing(arg))
    case SAssembly => Ok(ParseState(o.(assemblyType := arg), p.(assemblyNext := false)))
    case SAccess =>
      if arg in AccessTypes then Ok(ParseState(o.(access := arg), p.(accessNext := false)))
      else Err(InvalidAccess(arg))
    case SDlm =>
      if pathOk(arg) then Ok(ParseState(o.(preloadedDlms := o.preloadedDlms + [arg]), p.(dlmNext := false)))
      else Err(DlmMissing(arg))
    case SNameServer =>
      if pathOk(arg) then Ok(ParseState(o.(nsIor := arg), p.(nsNext := false)))
      else Err(NameServerMissing(arg))
  }

  /** One token of the argument list. */
  function Step(st: ParseState, arg: string, pathOk: string -> bool): (r: Result<ParseState, ArgError>)
    ensures r.Err? ==> r.error.NamesToken() && r.error.arg == arg
    ensures r.Err? && r.error.PathRejected() ==> !pathOk(arg)
    ensures r.Ok? ==> r.value.opts.outputFilename == st.opts.outputFilename
  {
    match BranchOf(st.pend, WordOf(arg), |arg| > 0 && arg[0] == '-')
    case Flag(w) => Ok(Raise(st, w))
    case Value(slot) => Store(st, slot, arg, pathOk)
    case Illegal => Err(IllegalOption(arg))
    case Positional =>
      if pathOk(arg) then Ok(st.(opts := st.opts.(modelFilename := arg)))
      else Err(ModelMissing(arg))
  }

  /** A token appended to a path list, or stored as a path, was accepted
      by the existence check. */
  lemma AcceptedPathsExist(st: ParseState, arg: string, pathOk: string -> bool)
    requires Step(st, arg, pathOk).Ok?
    ensures var o := Step(st, arg, pathOk).value.opts;
      && (o.preloadedObjs == st.opts.preloadedObjs || (pathOk(arg) && o.preloadedObjs == st.opts.preloadedObjs + [arg]))
      && (o.includeDirs == st.opts.includeDirs || (pathOk(arg) && o.includeDirs == st.opts.includeDirs + [arg]))
      && (o.preloadedDlms == st.opts.preloadedDlms || (pathOk(arg) && o.preloadedDlms == st.opts.preloadedDlms + [arg]))
      && (o.nsIor == st.opts.nsIor || (pathOk(arg) && o.nsIor == arg))
      && (o.modelFilename == st.opts.modelFilename || (pathOk(arg) && o.modelFilename == arg))
  {
    match BranchOf(st.pend, WordOf(arg), |arg| > 0 && arg[0] == '-')
    case Flag(w) =>
    case Value(slot) =>
    case Illegal =>
    case Positional =>
  }

  /** The access field only ever receives one of the three access types. */
  lemma AccessAlwaysValid(st: ParseState, arg: string, pathOk: string -> bool)
    requires Step(st, arg, pathOk).Ok?
    ensures var a := Step(st, arg, pathOk).value.opts.access;
      a == st.opts.access || a in AccessTypes
  {
  }

  /** The tokens processed left to right; the first error stops the scan. */
  function Scan(st: ParseState, toks: seq<string>, pathOk: string -> bool): Result<ParseState, ArgError>
    decreases |toks|
  {
    if |toks| == 0 then Ok(st)
    else
      var next :- Step(st, toks[0], pathOk);
      Scan(next, toks[1..], pathOk)
  }

  /** The pending flags in the order the end-of-list check tests them,
      and the error each one raises. */
  function PendingFlags(p: Pending): seq<bool> {
    [p.accessNext, p.assemblyNext, p.dlmNext, p.executiveNext, p.includeNext, p.nsNext, p.objNext, p.preprocNext]
  }

  const PendingErrors: seq<ArgError> := [
    ExpectedAccess, ExpectedAssembly, ExpectedDlm, ExpectedExecutive,
    ExpectedInclude, ExpectedNameServer, ExpectedObject, ExpectedPreproc]

  /** The end-of-list check: a value still expected is an error, and the
      first pending flag in the fixed order decides which. */
  function Finish(st: ParseState): (r: Result<Options, ArgError>)
    ensures r.Ok? <==> forall i :: 0 <= i < 8 ==> !PendingFlags(st.pend)[i]
    ensures r.Ok? ==> r.value == st.opts
    ensures forall i :: 0 <= i < 8 && PendingFlags(st.pend)[i] && (forall j :: 0 <= j < i ==> !PendingFlags(st.pend)[j]) ==>
      r == Err(PendingErrors[i])
  {
    var p := st.pend;
    var f := PendingFlags(p);
    if f[0] then Err(ExpectedAccess)
    else if f[1] then Err(ExpectedAssembly)
    else if f[2] then Err(ExpectedDlm)
    else if f[3] then Err(ExpectedExecutive)
    else if f[4] then Err(ExpectedInclude)
    else if f[5] then Err(ExpectedNameServer)
    else if f[6] then Err(ExpectedObject)
    else if f[7] then Err(ExpectedPreproc)
    else Ok(st.opts)
  }

  function TokensOf(args: ArgList): seq<string> {
    match args
    case Text(s) => Strings.SplitWhitespace(s)
    case List(items) => items
  }

  /** A string argument list parses as the list of its space-separated
      words. */
  lemma TextParsesAsList(start: Options, ws: seq<string>, pathOk: string -> bool)
    requires |ws| >= 1
    requires forall k :: 0 <= k < |ws| ==> |ws[k]| > 0 && forall i :: 0 <= i < |ws[k]| ==> !Strings.IsSpace(ws[k][i])
    ensures Parse(start, Text(Strings.Join(ws, ' ')), pathOk) == Parse(start, List(ws), pathOk)
  {
    Strings.SplitWhitespaceJoin(ws);
  }

  /** Parse an argument list into the fields `start` already holds; the
      `pathOk` predicate stands for the file-system existence check. */
  function Parse(start: Options, args: ArgList, pathOk: string -> bool): Result<Options, ArgError> {
    var st :- Scan(ParseState(start, NoPending), TokensOf(args), pathOk);
    Finish(st)
  }

  // ---------------------------------------------------------------------
  // Properties of single tokens

  /** A pending `-C` takes the next token as an object path, whatever it
      is (even another option word), unless it is `-C` itself. */
  lemma PendingObjectSwallows(st: ParseState, arg: string, pathOk: string -> bool)
    requires st.pend.objNext && arg != "-C"
    ensures pathOk(arg) ==>
      Step(st, arg, pathOk) == Ok(ParseState(st.opts.(preloadedObjs := st.opts.preloadedObjs + [arg]), st.pend.(objNext := false)))
    ensures !pathOk(arg) ==> Step(st, arg, pathOk) == Err(ObjectMissing(arg))
  {
  }

  /** A `-D` value records its definition; `name` alone defines `"1"`. */
  lemma DefineRecords(st: ParseState, arg: string, pathOk: string -> bool)
    requires st.pend.preprocNext && !st.pend.objNext && arg != "-C" && arg != "-D"
    ensures Step(st, arg, pathOk).Ok?
    ensures Step(st, arg, pathOk).value.pend == st.pend.(preprocNext := false)
    ensures var d := DefineOf(arg);
      Step(st, arg, pathOk).value.opts == st.opts.(preprocessorVars := st.opts.preprocessorVars[d.0 := d.1])
    ensures '=' !in arg ==>
      Step(st, arg, pathOk).value.opts.preprocessorVars == st.opts.preprocessorVars[arg := "1"]
  {
  }

  /** The value after `-a` must be one of the three access types. */
  lemma AccessValidated(st: ParseState, arg: string, pathOk: string -> bool)
    requires st.pend.accessNext
    requires !st.pend.objNext && !st.pend.preprocNext && !st.pend.executiveNext && !st.pend.includeNext && !st.pend.assemblyNext
    requires arg !in {"-C", "-D", "-E", "-I", "-X", "-a"}
    ensures Step(st, arg, pathOk).Ok? <==> arg in AccessTypes
    ensures Step(st, arg, pathOk).Ok? ==> Step(st, arg, pathOk).value.opts.access == arg
    ensures !Step(st, arg, pathOk).Ok? ==> Step(st, arg, pathOk).error == InvalidAccess(arg)
  {
  }

  /** With no value expected, a dash-word that is no known option is
      illegal. */
  lemma UnknownOptionIllegal(st: ParseState, arg: string, pathOk: string -> bool)
    requires st.pend == NoPending
    requires arg !in Keywords && |arg| > 0 && arg[0] == '-'
    ensures Step(st, arg, pathOk) == Err(IllegalOption(arg))
  {
  }

  /** With no value expected, any other token names the model file, which
      must exist. */
  lemma PositionalIsModelFile(st: ParseState, arg: string, pathOk: string -> bool)
    requires st.pend == NoPending
    requires arg !in Keywords && (|arg| == 0 || arg[0] != '-')
    ensures pathOk(arg) ==> Step(st, arg, pathOk) == Ok(st.(opts := st.opts.(modelFilename := arg)))
    ensures !pathOk(arg) ==> Step(st, arg, pathOk) == Err(ModelMissing(arg))
  {
  }

  /** A definition of the form `a=b=c` records `b`; a bare name records
      `"1"`. */
  lemma DefineKeepsSecondPiece()
    ensures DefineOf("a=b=c") == ("a", "b")
    ensures DefineOf("NAME") == ("NAME", "1")
  {
    Strings.IndexOfFirst("a=b=c", '=', 1);
    assert "a=b=c"[..1] == "a" && "a=b=c"[2..] == "b=c";
    Strings.IndexOfFirst("b=c", '=', 1);
    assert "b=c"[..1] == "b";
    assert '=' !in "NAME";
  }

  /** A `-C` whose value is `-D` loads an object named `-D` rather than
      starting a definition. */
  lemma ObjectSwallowsDefine(pathOk: string -> bool)
    ensures pathOk("-D") ==> Parse(Defaults(), List(["-C", "-D"]), pathOk) == Ok(Defaults().(preloadedObjs := ["-D"]))
    ensures !pathOk("-D") ==> Parse(Defaults(), List(["-C", "-D"]), pathOk) == Err(ObjectMissing("-D"))
  {
    var s0 := ParseState(Defaults(), NoPending);
    var s1 := s0.(pend := NoPending.(objNext := true));
    WordOfText(WObj);
    WordOfText(WDefine);
    assert Step(s0, "-C", pathOk) == Ok(s1);
    assert ["-C", "-D"][1..] == ["-D"];
    assert ["-D"][1..] == [];
    var s2 := ParseState(Defaults().(preloadedObjs := ["-D"]), NoPending);
    if pathOk("-D") {
      assert Defaults().preloadedObjs + ["-D"] == ["-D"];
      assert Step(s1, "-D", pathOk) == Ok(s2);
      assert Scan(s2, [], pathOk) == Ok(s2);
      assert Scan(s1, ["-D"], pathOk) == Ok(s2);
      assert Finish(s2) == Ok(s2.opts);
    } else {
      assert Step(s1, "-D", pathOk) == Err(ObjectMissing("-D"));
    }
  }

  /** A list that ends while both an access type and an object path are
      expected reports the access type, the first in the check order. */
  lemma EndOfListOrder(pathOk: string -> bool)
    ensures Parse(Defaults(), List(["-a", "-C"]), pathOk) == Err(ExpectedAccess)
  {
    var s0 := ParseState(Defaults(), NoPending);
    var s1 := s0.(pend := NoPending.(accessNext := true));
    var s2 := s1.(pend := s1.pend.(objNext := true));
    WordOfText(WObj);
    WordOfText(WAccess);
    assert Step(s0, "-a", pathOk) == Ok(s1);
    assert Step(s1, "-C", pathOk) == Ok(s2);
    assert ["-a", "-C"][1..] == ["-C"];
    assert ["-C"][1..] == [];
  }

  // ---------------------------------------------------------------------
  // The generator and its reference semantics

  /** One emitted option: a flag with its value, or a flag alone. */
  datatype Unit =
    | Obj(path: string)
    | Define(name: string, value: string)
    | Executive(typ: string)
    | Include(path: string)
    | Assembly(typ: string)
    | Access(typ: string)
    | Autodoc
    | Corba
    | IclodFirst
    | Dlm(path: string)
    | NoConstants
    | NoDefPaths
    | NoDclod
    | NoIclod
    | NoSolver
    | NameServer(path: string)
    | Trace

  function UnitTokens(u: Unit): seq<string> {
    match u
    case Obj(v) => ["-C", v]
    case Define(n, v) => ["-D", n + "=" + v]
    case Executive(v) => ["-E", v]
    case Include(v) => ["-I", v]
    case Assembly(v) => ["-X", v]
    case Access(v) => ["-a", v]
    case Autodoc => ["-autodoc"]
    case Corba => ["-corba"]
    case IclodFirst => ["-iclodfirst"]
    case Dlm(v) => ["-l", v]
    case NoConstants => ["-noconstants"]
    case NoDefPaths => ["-noDefPaths"]
    case NoDclod => ["-nodclod"]
    case NoIclod => ["-noiclod"]
    case NoSolver => ["-nosolver"]
    case NameServer(v) => ["-ns", v]
    case Trace => ["-trace"]
  }

  /** What an emitted option means: the field it sets. */
  function ApplyUnit(o: Options, u: Unit): Options {
    match u
    case Obj(v) => o.(preloadedObjs := o.preloadedObjs + [v])
    case Define(n, v) => o.(preprocessorVars := o.preprocessorVars[n := v])
    case Executive(v) => o.(executiveType := v)
    case Include(v) => o.(includeDirs := o.includeDirs + [v])
    case Assembly(v) => o.(assemblyType := v)
    case Access(v) => o.(access := v)
    case Autodoc => o.(autodoc := true)
    case Corba => o.(useCorba := true)
    case IclodFirst => o.(iclodFirst := true)
    case Dlm(v) => o.(preloadedDlms := o.preloadedDlms + [v])
    case NoConstants => o.(useConstants := false)
    case NoDefPaths => o.(useDefaultPaths := false)
    case NoDclod => o.(noDclod := true)
    case NoIclod => o.(noIclod := true)
    case NoSolver => o.(useSolver := false)
    case NameServer(v) => o.(nsIor := v)
    case Trace => o.(traceExecution := true)
  }

  /** The values an option can carry and still be read back: no value is
      an option word the parser tests before that option's pending value,
      paths exist, definitions hold no `=`, and an access type is one of
      the three. */
  predicate UnitOk(u: Unit, pathOk: string -> bool) {
    match u
    case Obj(v) => v !in WordsBefore(SObj) && pathOk(v)
    case Define(n, v) => '=' !in n && '=' !in v
    case Executive(v) => v !in WordsBefore(SExecutive)
    case Include(v) => v !in WordsBefore(SInclude) && pathOk(v)
    case Assembly(v) => v !in WordsBefore(SAssembly)
    case Access(v) => v in AccessTypes
    case Dlm(v) => v !in WordsBefore(SDlm) && pathOk(v)
    case NameServer(v) => v !in WordsBefore(SNameServer) && pathOk(v)
    case _ => true
  }

  function Emit(us: seq<Unit>): seq<string> {
    if |us| == 0 then [] else UnitTokens(us[0]) + Emit(us[1..])
  }

  function ApplyUnits(o: Options, us: seq<Unit>): Options
    decreases |us|
  {
    if |us| == 0 then o else ApplyUnits(ApplyUnit(o, us[0]), us[1..])
  }

  function ObjUnits(xs: seq<string>): seq<Unit> {
    if |xs| == 0 then [] else [Obj(xs[0])] + ObjUnits(xs[1..])
  }

  function IncludeUnits(xs: seq<string>): seq<Unit> {
    if |xs| == 0 then [] else [Include(xs[0])] + IncludeUnits(xs[1..])
  }

  function DlmUnits(xs: seq<string>): seq<Unit> {
    if |xs| == 0 then [] else [Dlm(xs[0])] + DlmUnits(xs[1..])
  }

  /** One `-D name=value` per key, in the dictionary's iteration order
      `order`. */
  function DefineUnits(order: seq<string>, m: map<string, string>): seq<Unit>
    requires forall k :: k in order ==> k in m
  {
    if |order| == 0 then [] else [Define(order[0], m[order[0]])] + DefineUnits(order[1..], m)
  }

  function When(c: bool, u: Unit): seq<Unit> {
    if c then [u] else []
  }

  /** The options the generator emits, in its order; string fields only
      when non-empty, switches only when they differ from the default. */
  function GenerateUnits(o: Options, order: seq<string>): seq<Unit>
    requires forall k :: k in order ==> k in o.preprocessorVars
  {
    LeadingUnits(o, order) + TrailingUnits(o)
  }

  /** Objects, definitions, executive, includes, assembly, access and the
      first three switches. */
  function LeadingUnits(o: Options, order: seq<string>): seq<Unit>
    requires forall k :: k in order ==> k in o.preprocessorVars
  {
    ObjUnits(o.preloadedObjs)
    + (DefineUnits(order, o.preprocessorVars)
    + (When(o.executiveType != "", Executive(o.executiveType))
    + (IncludeUnits(o.includeDirs)
    + FromAssembly(o))))
  }

  // The generator's tail from each option onwards, one function per option.
  function FromAssembly(o: Options): seq<Unit> { When(o.assemblyType != "", Assembly(o.assemblyType)) + FromAccess(o) }
  function FromAccess(o: Options): seq<Unit> { When(o.access != "", Access(o.access)) + FromAutodoc(o) }
  function FromAutodoc(o: Options): seq<Unit> { When(o.autodoc, Autodoc) + FromCorba(o) }
  function FromCorba(o: Options): seq<Unit> { When(o.useCorba, Corba) + FromIclodFirst(o) }
  function FromIclodFirst(o: Options): seq<Unit> { When(o.iclodFirst, IclodFirst) }

  /** DLMs, the remaining switches and the name-server path. */
  function TrailingUnits(o: Options): seq<Unit> {
    DlmUnits(o.preloadedDlms) + FromNoConstants(o)
  }

  function FromNoConstants(o: Options): seq<Unit> { When(!o.useConstants, NoConstants) + FromNoDefPaths(o) }
  function FromNoDefPaths(o: Options): seq<Unit> { When(!o.useDefaultPaths, NoDefPaths) + FromNoDclod(o) }
  function FromNoDclod(o: Options): seq<Unit> { When(o.noDclod, NoDclod) + FromNoIclod(o) }
  function FromNoIclod(o: Options): seq<Unit> { When(o.noIclod, NoIclod) + FromNoSolver(o) }
  function FromNoSolver(o: Options): seq<Unit> { When(!o.useSolver, NoSolver) + FromNameServer(o) }
  function FromNameServer(o: Options): seq<Unit> { When(o.nsIor != "", NameServer(o.nsIor)) + FromTrace(o) }
  function FromTrace(o: Options): seq<Unit> { When(o.traceExecution, Trace) }

  /** The argument list for the current fields; `order` is the iteration
      order of the preprocessor dictionary's keys. */
  function Generate(o: Options, order: seq<string>): seq<string>
    requires forall k :: k in order ==> k in o.preprocessorVars
  {
    Emit(GenerateUnits(o, order))
  }

  /** The fields the generator can write out faithfully. */
  predicate Emittable(o: Options, pathOk: string -> bool) {
    && (forall i :: 0 <= i < |o.preloadedObjs| ==> UnitOk(Obj(o.preloadedObjs[i]), pathOk))
    && (forall k :: k in o.preprocessorVars ==> UnitOk(Define(k, o.preprocessorVars[k]), pathOk))
    && o.executiveType !in WordsBefore(SExecutive)
    && (forall i :: 0 <= i < |o.includeDirs| ==> UnitOk(Include(o.includeDirs[i]), pathOk))
    && o.assemblyType !in WordsBefore(SAssembly)
    && (o.access == "" || o.access in AccessTypes)
    && (forall i :: 0 <= i < |o.preloadedDlms| ==> UnitOk(Dlm(o.preloadedDlms[i]), pathOk))
    && (o.nsIor == "" || UnitOk(NameServer(o.nsIor), pathOk))
  }

  // ---------------------------------------------------------------------
  // Round trip

  lemma {:induction false} ScanAppend(st: ParseState, a: seq<string>, b: seq<string>, pathOk: string -> bool)
    ensures Scan(st, a + b, pathOk) ==
      match Scan(st, a, pathOk)
      case Ok(mid) => Scan(mid, b, pathOk)
      case Err(e) => Err(e)
    decreases |a|
  {
    if |a| == 0 {
      assert a + b == b;
    } else {
      assert (a + b)[0] == a[0];
      assert (a + b)[1..] == a[1..] + b;
      match Step(st, a[0], pathOk)
      case Ok(next) => ScanAppend(next, a[1..], b, pathOk);
      case Err(_) =>
    }
  }

  lemma ScanPair(st: ParseState, x: string, y: string, pathOk: string -> bool)
    ensures Scan(st, [x, y], pathOk) ==
      match Step(st, x, pathOk)
      case Ok(mid) => Step(mid, y, pathOk)
      case Err(e) => Err(e)
  {
    assert [x, y][1..] == [y];
    match Step(st, x, pathOk)
    case Ok(mid) =>
      assert Scan(mid, [y], pathOk) == Step(mid, y, pathOk) by {
        assert [y][1..] == [];
      }
    case Err(_) =>
  }

  lemma DefineTokenSplits(n: string, v: string)
    requires '=' !in n && '=' !in v
    ensures DefineOf(n + "=" + v) == (n, v)
    ensures n + "=" + v != "-C" && n + "=" + v != "-D"
  {
    var t := n + "=" + v;
    assert Strings.Join([n, v], '=') == t by {
      assert [n, v][1..] == [v];
    }
    Strings.SplitJoin([n, v], '=');
    assert t[|n|] == '=';
    assert '=' !in "-C" && '=' !in "-D";
  }

  /** The pending flags with only the one for `slot` raised. */
  function Awaiting(slot: Slot): Pending {
    match slot
    case SObj => NoPending.(objNext := true)
    case SDefine => NoPending.(preprocNext := true)
    case SExecutive => NoPending.(executiveNext := true)
    case SInclude => NoPending.(includeNext := true)
    case SAssembly => NoPending.(assemblyNext := true)
    case SAccess => NoPending.(accessNext := true)
    case SDlm => NoPending.(dlmNext := true)
    case SNameServer => NoPending.(nsNext := true)
  }

  /** With nothing pending an option word is taken as itself. */
  lemma IdleTakesWord(w: Word, dash: bool)
    ensures BranchOf(NoPending, Some(w), dash) == Flag(w)
  {
  }

  /** With one value pending, a token that is no option word is that
      value. */
  lemma AwaitingTakesValue(slot: Slot, dash: bool)
    ensures BranchOf(Awaiting(slot), None, dash) == Value(slot)
  {
  }

  /** A value-taking option followed by its value, read with nothing
      pending. */
  lemma PairReadBack(o: Options, t: string, w: Word, slot: Slot, v: string, pathOk: string -> bool)
    requires WordOf(t) == Some(w) && |t| > 0 && t[0] == '-'
    requires Raise(ParseState(o, NoPending), w) == ParseState(o, Awaiting(slot))
    requires v !in WordsBefore(slot)
    ensures Scan(ParseState(o, NoPending), [t, v], pathOk) == Store(ParseState(o, Awaiting(slot)), slot, v, pathOk)
  {
    var st := ParseState(o, NoPending);
    IdleTakesWord(w, true);
    assert Step(st, t, pathOk) == Ok(ParseState(o, Awaiting(slot)));
    TakenAsValueIff(slot, v);
    ScanPair(st, t, v, pathOk);
  }

  /** A switch option read with nothing pending. */
  lemma SwitchReadBack(o: Options, t: string, w: Word, pathOk: string -> bool)
    requires WordOf(t) == Some(w) && |t| > 0 && t[0] == '-'
    ensures Scan(ParseState(o, NoPending), [t], pathOk) == Ok(Raise(ParseState(o, NoPending), w))
  {
    IdleTakesWord(w, true);
    var toks: seq<string> := [t];
    assert toks[1..] == [];
  }

  predicate IsSwitch(u: Unit) {
    u.Autodoc? || u.Corba? || u.IclodFirst? || u.NoConstants? || u.NoDefPaths? ||
    u.NoDclod? || u.NoIclod? || u.NoSolver? || u.Trace?
  }

  /** The option word that emits a switch. */
  function SwitchWord(u: Unit): Word
    requires IsSwitch(u)
  {
    match u
    case Autodoc => WAutodoc
    case Corba => WCorba
    case IclodFirst => WIclodFirst
    case NoConstants => WNoConstants
    case NoDefPaths => WNoDefPaths
    case NoDclod => WNoDclod
    case NoIclod => WNoIclod
    case NoSolver => WNoSolver
    case Trace => WTrace
  }

  lemma SwitchWordText(u: Unit)
    requires IsSwitch(u)
    ensures UnitTokens(u) == [WordText(SwitchWord(u))]
    ensures |WordText(SwitchWord(u))| > 0 && WordText(SwitchWord(u))[0] == '-'
  {
  }

  lemma SwitchWordRaise(o: Options, u: Unit)
    requires IsSwitch(u)
    ensures Raise(ParseState(o, NoPending), SwitchWord(u)) == ParseState(ApplyUnit(o, u), NoPending)
  {
  }

  lemma SwitchUnitReadBack(o: Options, u: Unit, pathOk: string -> bool)
    requires IsSwitch(u)
    ensures Scan(ParseState(o, NoPending), UnitTokens(u), pathOk) == Ok(ParseState(ApplyUnit(o, u), NoPending))
  {
    var w := SwitchWord(u);
    SwitchWordText(u);
    SwitchWordRaise(o, u);
    WordOfText(w);
    SwitchReadBack(o, WordText(w), w, pathOk);
  }

  /** No option word contains `=`. */
  lemma KeywordsHaveNoEquals(t: string)
    requires '=' in t
    ensures t !in Keywords
  {
  }

  lemma DefineUnitReadBack(o: Options, n: string, v: string, pathOk: string -> bool)
    requires '=' !in n && '=' !in v
    ensures Scan(ParseState(o, NoPending), ["-D", n + "=" + v], pathOk)
      == Ok(ParseState(o.(preprocessorVars := o.preprocessorVars[n := v]), NoPending))
  {
    DefineTokenSplits(n, v);
    var t := n + "=" + v;
    assert t[|n|] == '=';
    KeywordsHaveNoEquals(t);
    PairReadBack(o, "-D", WDefine, SDefine, t, pathOk);
  }

  /** No access type is an option word. */
  lemma AccessTypesAreNotWords(t: string)
    requires t in AccessTypes
    ensures t !in Keywords
  {
    assert t[0] != '-';
  }

  lemma PathUnitReadBack(o: Options, u: Unit, pathOk: string -> bool)
    requires (u.Obj? || u.Include? || u.Dlm? || u.NameServer?) && UnitOk(u, pathOk)
    ensures Scan(ParseState(o, NoPending), UnitTokens(u), pathOk) == Ok(ParseState(ApplyUnit(o, u), NoPending))
  {
    match u
    case Obj(v) => PairReadBack(o, "-C", WObj, SObj, v, pathOk);
    case Include(v) => PairReadBack(o, "-I", WInclude, SInclude, v, pathOk);
    case Dlm(v) => PairReadBack(o, "-l", WDlm, SDlm, v, pathOk);
    case NameServer(v) => PairReadBack(o, "-ns", WNameServer, SNameServer, v, pathOk);
  }

  lemma TextUnitReadBack(o: Options, u: Unit, pathOk: string -> bool)
    requires (u.Define? || u.Executive? || u.Assembly? || u.Access?) && UnitOk(u, pathOk)
    ensures Scan(ParseState(o, NoPending), UnitTokens(u), pathOk) == Ok(ParseState(ApplyUnit(o, u), NoPending))
  {
    match u
    case Define(n, v) => DefineUnitReadBack(o, n, v, pathOk);
    case Executive(v) => PairReadBack(o, "-E", WExecutive, SExecutive, v, pathOk);
    case Assembly(v) => PairReadBack(o, "-X", WAssembly, SAssembly, v, pathOk);
    case Access(v) =>
      AccessTypesAreNotWords(v);
      PairReadBack(o, "-a", WAccess, SAccess, v, pathOk);
  }

  /** Reading back one emitted option, with nothing pending, performs
      exactly its reference effect and leaves nothing pending. */
  lemma UnitReadBack(o: Options, u: Unit, pathOk: string -> bool)
    requires UnitOk(u, pathOk)
    ensures Scan(ParseState(o, NoPending), UnitTokens(u), pathOk) == Ok(ParseState(ApplyUnit(o, u), NoPending))
  {
    if IsSwitch(u) {
      SwitchUnitReadBack(o, u, pathOk);
    } else if u.Obj? || u.Include? || u.Dlm? || u.NameServer? {
      PathUnitReadBack(o, u, pathOk);
    } else {
      TextUnitReadBack(o, u, pathOk);
    }
  }

  /** Reading back a sequence of emitted options performs their reference
      effects in order. */
  lemma {:induction false} UnitsReadBack(o: Options, us: seq<Unit>, pathOk: string -> bool)
    requires forall i :: 0 <= i < |us| ==> UnitOk(us[i], pathOk)
    ensures Scan(ParseState(o, NoPending), Emit(us), pathOk) == Ok(ParseState(ApplyUnits(o, us), NoPending))
    decreases |us|
  {
    if |us| > 0 {
      ScanAppend(ParseState(o, NoPending), UnitTokens(us[0]), Emit(us[1..]), pathOk);
      UnitReadBack(o, us[0], pathOk);
      UnitsReadBack(ApplyUnit(o, us[0]), us[1..], pathOk);
    }
  }

  lemma {:induction false} ApplyAppend(o: Options, a: seq<Unit>, b: seq<Unit>)
    ensures ApplyUnits(o, a + b) == ApplyUnits(ApplyUnits(o, a), b)
    decreases |a|
  {
    if |a| == 0 {
      assert a + b == b;
    } else {
      assert (a + b)[1..] == a[1..] + b;
      ApplyAppend(ApplyUnit(o, a[0]), a[1..], b);
    }
  }

  lemma {:induction false} ApplyObjs(o: Options, xs: seq<string>)
    ensures ApplyUnits(o, ObjUnits(xs)) == o.(preloadedObjs := o.preloadedObjs + xs)
    decreases |xs|
  {
    if |xs| > 0 {
      ApplyObjs(ApplyUnit(o, Obj(xs[0])), xs[1..]);
      assert o.preloadedObjs + [xs[0]] + xs[1..] == o.preloadedObjs + xs;
    }
  }

  lemma {:induction false} ApplyIncludes(o: Options, xs: seq<string>)
    ensures ApplyUnits(o, IncludeUnits(xs)) == o.(includeDirs := o.includeDirs + xs)
    decreases |xs|
  {
    if |xs| > 0 {
      ApplyIncludes(ApplyUnit(o, Include(xs[0])), xs[1..]);
      assert o.includeDirs + [xs[0]] + xs[1..] == o.includeDirs + xs;
    }
  }

  lemma {:induction false} ApplyDlms(o: Options, xs: seq<string>)
    ensures ApplyUnits(o, DlmUnits(xs)) == o.(preloadedDlms := o.preloadedDlms + xs)
    decreases |xs|
  {
    if |xs| > 0 {
      ApplyDlms(ApplyUnit(o, Dlm(xs[0])), xs[1..]);
      assert o.preloadedDlms + [xs[0]] + xs[1..] == o.preloadedDlms + xs;
    }
  }

  /** The definitions override the existing dictionary on the listed keys
      and leave the rest alone. */
  lemma {:induction false} ApplyDefines(o: Options, order: seq<string>, m: map<string, string>)
    requires forall k :: k in order ==> k in m
    ensures var v := ApplyUnits(o, DefineUnits(order, m));
      && v == o.(preprocessorVars := v.preprocessorVars)
      && v.preprocessorVars.Keys == o.preprocessorVars.Keys + (set k | k in order)
      && (forall k :: k in order ==> v.preprocessorVars[k] == m[k])
      && (forall k :: k in o.preprocessorVars && k !in order ==> v.preprocessorVars[k] == o.preprocessorVars[k])
    decreases |order|
  {
    if |order| > 0 {
      var k0 := order[0];
      var o1 := ApplyUnit(o, Define(k0, m[k0]));
      ApplyDefines(o1, order[1..], m);
      forall k | k in order
        ensures k == k0 || k in order[1..]
      {
        var i :| 0 <= i < |order| && order[i] == k;
        if i > 0 {
          assert order[1..][i - 1] == k;
        }
      }
    }
  }

  lemma ApplyWhen(o: Options, c: bool, u: Unit, rest: seq<Unit>, t: Options)
    requires (if c then ApplyUnit(o, u) else o) == t
    ensures ApplyUnits(o, When(c, u) + rest) == ApplyUnits(t, rest)
  {
    if c {
      assert ([u] + rest)[1..] == rest;
    } else {
      assert When(c, u) + rest == rest;
    }
  }

  lemma ObjsThen(s: Options, xs: seq<string>, rest: seq<Unit>)
    requires s.preloadedObjs == []
    ensures ApplyUnits(s, ObjUnits(xs) + rest) == ApplyUnits(s.(preloadedObjs := xs), rest)
  {
    ApplyAppend(s, ObjUnits(xs), rest);
    ApplyObjs(s, xs);
    assert s.preloadedObjs + xs == xs;
  }

  lemma DefinesThen(s: Options, order: seq<string>, m: map<string, string>, rest: seq<Unit>)
    requires forall k :: k in order ==> k in m
    requires m.Keys <= set k | k in order
    requires s.preprocessorVars == map[]
    ensures ApplyUnits(s, DefineUnits(order, m) + rest) == ApplyUnits(s.(preprocessorVars := m), rest)
  {
    ApplyAppend(s, DefineUnits(order, m), rest);
    ApplyDefines(s, order, m);
    assert ApplyUnits(s, DefineUnits(order, m)).preprocessorVars == m;
  }

  lemma IncludesThen(s: Options, xs: seq<string>, rest: seq<Unit>)
    requires s.includeDirs == []
    ensures ApplyUnits(s, IncludeUnits(xs) + rest) == ApplyUnits(s.(includeDirs := xs), rest)
  {
    ApplyAppend(s, IncludeUnits(xs), rest);
    ApplyIncludes(s, xs);
    assert s.includeDirs + xs == xs;
  }

  lemma DlmsThen(s: Options, xs: seq<string>, rest: seq<Unit>)
    requires s.preloadedDlms == []
    ensures ApplyUnits(s, DlmUnits(xs) + rest) == ApplyUnits(s.(preloadedDlms := xs), rest)
  {
    ApplyAppend(s, DlmUnits(xs), rest);
    ApplyDlms(s, xs);
    assert s.preloadedDlms + xs == xs;
  }

  lemma LeadingMeaning(s: Options, o: Options, order: seq<string>)
    requires forall k :: k in order ==> k in o.preprocessorVars
    requires o.preprocessorVars.Keys <= set k | k in order
    requires s.preloadedObjs == [] && s.preprocessorVars == map[] && s.executiveType == "" && s.includeDirs == []
    requires s.assemblyType == "" && s.access == "" && !s.autodoc && !s.useCorba && !s.iclodFirst
    ensures ApplyUnits(s, LeadingUnits(o, order)) == s.(
      preloadedObjs := o.preloadedObjs, preprocessorVars := o.preprocessorVars, executiveType := o.executiveType,
      includeDirs := o.includeDirs, assemblyType := o.assemblyType, access := o.access, autodoc := o.autodoc,
      useCorba := o.useCorba, iclodFirst := o.iclodFirst)
  {
    var r3 := IncludeUnits(o.includeDirs) + FromAssembly(o);
    var r2 := When(o.executiveType != "", Executive(o.executiveType)) + r3;
    var r1 := DefineUnits(order, o.preprocessorVars) + r2;
    var s1 := s.(preloadedObjs := o.preloadedObjs);
    ObjsThen(s, o.preloadedObjs, r1);
    var s2 := s1.(preprocessorVars := o.preprocessorVars);
    DefinesThen(s1, order, o.preprocessorVars, r2);
    var s3 := s2.(executiveType := o.executiveType);
    ApplyWhen(s2, o.executiveType != "", Executive(o.executiveType), r3, s3);
    var s4 := s3.(includeDirs := o.includeDirs);
    IncludesThen(s3, o.includeDirs, FromAssembly(o));
    AssemblyOnwards(s4, o);
  }

  lemma AssemblyOnwards(s: Options, o: Options)
    requires s.assemblyType == "" && s.access == "" && !s.autodoc && !s.useCorba && !s.iclodFirst
    ensures ApplyUnits(s, FromAssembly(o)) == s.(assemblyType := o.assemblyType, access := o.access,
      autodoc := o.autodoc, useCorba := o.useCorba, iclodFirst := o.iclodFirst)
  {
    var t := s.(assemblyType := o.assemblyType);
    ApplyWhen(s, o.assemblyType != "", Assembly(o.assemblyType), FromAccess(o), t);
    AccessOnwards(t, o);
  }

  lemma AccessOnwards(s: Options, o: Options)
    requires s.access == "" && !s.autodoc && !s.useCorba && !s.iclodFirst
    ensures ApplyUnits(s, FromAccess(o)) == s.(access := o.access, autodoc := o.autodoc,
      useCorba := o.useCorba, iclodFirst := o.iclodFirst)
  {
    var t := s.(access := o.access);
    ApplyWhen(s, o.access != "", Access(o.access), FromAutodoc(o), t);
    AutodocOnwards(t, o);
  }

  lemma AutodocOnwards(s: Options, o: Options)
    requires !s.autodoc && !s.useCorba && !s.iclodFirst
    ensures ApplyUnits(s, FromAutodoc(o)) == s.(autodoc := o.autodoc, useCorba := o.useCorba,
      iclodFirst := o.iclodFirst)
  {
    var t := s.(autodoc := o.autodoc);
    ApplyWhen(s, o.autodoc, Autodoc, FromCorba(o), t);
    CorbaOnwards(t, o);
  }

  lemma CorbaOnwards(s: Options, o: Options)
    requires !s.useCorba && !s.iclodFirst
    ensures ApplyUnits(s, FromCorba(o)) == s.(useCorba := o.useCorba, iclodFirst := o.iclodFirst)
  {
    var t := s.(useCorba := o.useCorba);
    ApplyWhen(s, o.useCorba, Corba, FromIclodFirst(o), t);
    IclodFirstOnwards(t, o);
  }

  lemma IclodFirstOnwards(s: Options, o: Options)
    requires !s.iclodFirst
    ensures ApplyUnits(s, FromIclodFirst(o)) == s.(iclodFirst := o.iclodFirst)
  {
    ApplyWhen(s, o.iclodFirst, IclodFirst, [], s.(iclodFirst := o.iclodFirst));
    assert FromIclodFirst(o) + [] == FromIclodFirst(o);
  }

  lemma TrailingMeaning(s: Options, o: Options)
    requires s.preloadedDlms == [] && s.useConstants && s.useDefaultPaths && !s.noDclod && !s.noIclod
    requires s.useSolver && s.nsIor == "" && !s.traceExecution
    ensures ApplyUnits(s, TrailingUnits(o)) == s.(
      preloadedDlms := o.preloadedDlms, useConstants := o.useConstants, useDefaultPaths := o.useDefaultPaths,
      noDclod := o.noDclod, noIclod := o.noIclod, useSolver := o.useSolver, nsIor := o.nsIor,
      traceExecution := o.traceExecution)
  {
    var s1 := s.(preloadedDlms := o.preloadedDlms);
    DlmsThen(s, o.preloadedDlms, FromNoConstants(o));
    var s2 := s1.(useConstants := o.useConstants);
    ApplyWhen(s1, !o.useConstants, NoConstants, FromNoDefPaths(o), s2);
    var s3 := s2.(useDefaultPaths := o.useDefaultPaths);
    ApplyWhen(s2, !o.useDefaultPaths, NoDefPaths, FromNoDclod(o), s3);
    NoDclodOnwards(s3, o);
  }

  lemma NoDclodOnwards(s: Options, o: Options)
    requires !s.noDclod && !s.noIclod && s.useSolver && s.nsIor == "" && !s.traceExecution
    ensures ApplyUnits(s, FromNoDclod(o)) == s.(noDclod := o.noDclod, noIclod := o.noIclod,
      useSolver := o.useSolver, nsIor := o.nsIor, traceExecution := o.traceExecution)
  {
    var t := s.(noDclod := o.noDclod);
    ApplyWhen(s, o.noDclod, NoDclod, FromNoIclod(o), t);
    NoIclodOnwards(t, o);
  }

  lemma NoIclodOnwards(s: Options, o: Options)
    requires !s.noIclod && s.useSolver && s.nsIor == "" && !s.traceExecution
    ensures ApplyUnits(s, FromNoIclod(o)) == s.(noIclod := o.noIclod, useSolver := o.useSolver,
      nsIor := o.nsIor, traceExecution := o.traceExecution)
  {
    var t := s.(noIclod := o.noIclod);
    ApplyWhen(s, o.noIclod, NoIclod, FromNoSolver(o), t);
    NoSolverOnwards(t, o);
  }

  lemma NoSolverOnwards(s: Options, o: Options)
    requires s.useSolver && s.nsIor == "" && !s.traceExecution
    ensures ApplyUnits(s, FromNoSolver(o)) == s.(useSolver := o.useSolver, nsIor := o.nsIor,
      traceExecution := o.traceExecution)
  {
    var t := s.(useSolver := o.useSolver);
    ApplyWhen(s, !o.useSolver, NoSolver, FromNameServer(o), t);
    NameServerOnwards(t, o);
  }

  lemma NameServerOnwards(s: Options, o: Options)
    requires s.nsIor == "" && !s.traceExecution
    ensures ApplyUnits(s, FromNameServer(o)) == s.(nsIor := o.nsIor, traceExecution := o.traceExecution)
  {
    var t := s.(nsIor := o.nsIor);
    ApplyWhen(s, o.nsIor != "", NameServer(o.nsIor), FromTrace(o), t);
    TraceOnwards(t, o);
  }

  lemma TraceOnwards(s: Options, o: Options)
    requires !s.traceExecution
    ensures ApplyUnits(s, FromTrace(o)) == s.(traceExecution := o.traceExecution)
  {
    ApplyWhen(s, o.traceExecution, Trace, [], s.(traceExecution := o.traceExecution));
    assert FromTrace(o) + [] == FromTrace(o);
  }

  /** The generated options, applied to the defaults, rebuild every field
      the generator writes out. */
  lemma GeneratedMeaning(o: Options, order: seq<string>)
    requires forall k :: k in order ==> k in o.preprocessorVars
    requires o.preprocessorVars.Keys <= set k | k in order
    ensures ApplyUnits(Defaults(), GenerateUnits(o, order)) == o.(modelFilename := "", outputFilename := "")
  {
    var d := Defaults();
    ApplyAppend(d, LeadingUnits(o, order), TrailingUnits(o));
    LeadingMeaning(d, o, order);
    var m := d.(
      preloadedObjs := o.preloadedObjs, preprocessorVars := o.preprocessorVars, executiveType := o.executiveType,
      includeDirs := o.includeDirs, assemblyType := o.assemblyType, access := o.access, autodoc := o.autodoc,
      useCorba := o.useCorba, iclodFirst := o.iclodFirst);
    TrailingMeaning(m, o);
  }

  lemma {:induction false} ObjUnitsOk(xs: seq<string>, pathOk: string -> bool)
    requires forall i :: 0 <= i < |xs| ==> UnitOk(Obj(xs[i]), pathOk)
    ensures forall i :: 0 <= i < |ObjUnits(xs)| ==> UnitOk(ObjUnits(xs)[i], pathOk)
    ensures |ObjUnits(xs)| == |xs|
    decreases |xs|
  {
    if |xs| > 0 {
      ObjUnitsOk(xs[1..], pathOk);
    }
  }

  lemma {:induction false} IncludeUnitsOk(xs: seq<string>, pathOk: string -> bool)
    requires forall i :: 0 <= i < |xs| ==> UnitOk(Include(xs[i]), pathOk)
    ensures forall i :: 0 <= i < |IncludeUnits(xs)| ==> UnitOk(IncludeUnits(xs)[i], pathOk)
    ensures |IncludeUnits(xs)| == |xs|
    decreases |xs|
  {
    if |xs| > 0 {
      IncludeUnitsOk(xs[1..], pathOk);
    }
  }

  lemma {:induction false} DlmUnitsOk(xs: seq<string>, pathOk: string -> bool)
    requires forall i :: 0 <= i < |xs| ==> UnitOk(Dlm(xs[i]), pathOk)
    ensures forall i :: 0 <= i < |DlmUnits(xs)| ==> UnitOk(DlmUnits(xs)[i], pathOk)
    ensures |DlmUnits(xs)| == |xs|
    decreases |xs|
  {
    if |xs| > 0 {
      DlmUnitsOk(xs[1..], pathOk);
    }
  }

  lemma {:induction false} DefineUnitsOk(order: seq<string>, m: map<string, string>, pathOk: string -> bool)
    requires forall k :: k in order ==> k in m
    requires forall k :: k in m ==> UnitOk(Define(k, m[k]), pathOk)
    ensures forall i :: 0 <= i < |DefineUnits(order, m)| ==> UnitOk(DefineUnits(order, m)[i], pathOk)
    decreases |order|
  {
    if |order| > 0 {
      DefineUnitsOk(order[1..], m, pathOk);
    }
  }

  predicate AllOk(us: seq<Unit>, pathOk: string -> bool) {
    forall i :: 0 <= i < |us| ==> UnitOk(us[i], pathOk)
  }

  lemma AllOkAppend(a: seq<Unit>, b: seq<Unit>, pathOk: string -> bool)
    requires AllOk(a, pathOk) && AllOk(b, pathOk)
    ensures AllOk(a + b, pathOk)
  {
    forall i | 0 <= i < |a + b|
      ensures UnitOk((a + b)[i], pathOk)
    {
      if i >= |a| {
        assert (a + b)[i] == b[i - |a|];
      }
    }
  }

  lemma WhenOk(c: bool, u: Unit, rest: seq<Unit>, pathOk: string -> bool)
    requires c ==> UnitOk(u, pathOk)
    requires AllOk(rest, pathOk)
    ensures AllOk(When(c, u) + rest, pathOk)
  {
    if c {
      AllOkAppend([u], rest, pathOk);
    } else {
      assert When(c, u) + rest == rest;
    }
  }

  lemma LeadingUnitsOk(o: Options, order: seq<string>, pathOk: string -> bool)
    requires forall k :: k in order ==> k in o.preprocessorVars
    requires Emittable(o, pathOk)
    ensures AllOk(LeadingUnits(o, order), pathOk)
  {
    ObjUnitsOk(o.preloadedObjs, pathOk);
    DefineUnitsOk(order, o.preprocessorVars, pathOk);
    IncludeUnitsOk(o.includeDirs, pathOk);
    WhenOk(o.iclodFirst, IclodFirst, [], pathOk);
    assert FromIclodFirst(o) + [] == FromIclodFirst(o);
    WhenOk(o.useCorba, Corba, FromIclodFirst(o), pathOk);
    WhenOk(o.autodoc, Autodoc, FromCorba(o), pathOk);
    WhenOk(o.access != "", Access(o.access), FromAutodoc(o), pathOk);
    WhenOk(o.assemblyType != "", Assembly(o.assemblyType), FromAccess(o), pathOk);
    var r3 := IncludeUnits(o.includeDirs) + FromAssembly(o);
    AllOkAppend(IncludeUnits(o.includeDirs), FromAssembly(o), pathOk);
    var r2 := When(o.executiveType != "", Executive(o.executiveType)) + r3;
    WhenOk(o.executiveType != "", Executive(o.executiveType), r3, pathOk);
    var r1 := DefineUnits(order, o.preprocessorVars) + r2;
    AllOkAppend(DefineUnits(order, o.preprocessorVars), r2, pathOk);
    AllOkAppend(ObjUnits(o.preloadedObjs), r1, pathOk);
  }

  lemma TrailingUnitsOk(o: Options, pathOk: string -> bool)
    requires Emittable(o, pathOk)
    ensures AllOk(TrailingUnits(o), pathOk)
  {
    DlmUnitsOk(o.preloadedDlms, pathOk);
    WhenOk(o.traceExecution, Trace, [], pathOk);
    assert FromTrace(o) + [] == FromTrace(o);
    WhenOk(o.nsIor != "", NameServer(o.nsIor), FromTrace(o), pathOk);
    WhenOk(!o.useSolver, NoSolver, FromNameServer(o), pathOk);
    WhenOk(o.noIclod, NoIclod, FromNoSolver(o), pathOk);
    WhenOk(o.noDclod, NoDclod, FromNoIclod(o), pathOk);
    WhenOk(!o.useDefaultPaths, NoDefPaths, FromNoDclod(o), pathOk);
    WhenOk(!o.useConstants, NoConstants, FromNoDefPaths(o), pathOk);
    AllOkAppend(DlmUnits(o.preloadedDlms), FromNoConstants(o), pathOk);
  }

  /** Parsing the generated list into a fresh component restores every
      field the generator writes; the model and output file names are
      never written and come back as their defaults. */
  lemma RoundTrip(o: Options, order: seq<string>, pathOk: string -> bool)
    requires forall k :: k in order ==> k in o.preprocessorVars
    requires o.preprocessorVars.Keys <= set k | k in order
    requires Emittable(o, pathOk)
    ensures Parse(Defaults(), List(Generate(o, order)), pathOk) == Ok(o.(modelFilename := "", outputFilename := ""))
  {
    GeneratedOk(o, order, pathOk);
    ParseEmitted(Defaults(), GenerateUnits(o, order), pathOk);
    GeneratedMeaning(o, order);
  }

  /** An executive type spelled like an option word tested after `-E`'s
      pending value still reads back. */
  lemma LaterWordReadsBack(pathOk: string -> bool)
    ensures Parse(Defaults(), List(Generate(Defaults().(executiveType := "-trace"), [])), pathOk)
      == Ok(Defaults().(executiveType := "-trace"))
  {
    var o := Defaults().(executiveType := "-trace");
    RoundTrip(o, [], pathOk);
    assert o.(modelFilename := "", outputFilename := "") == o;
  }

  /** An executive type spelled like an option word tested before `-E`'s
      pending value does not: `-E -C` leaves both values pending, and the
      executive type is reported missing. */
  lemma EarlierWordGenerated()
    ensures Generate(Defaults().(executiveType := "-C"), []) == ["-E", "-C"]
  {
    var o := Defaults().(executiveType := "-C");
    assert GenerateUnits(o, []) == [Executive("-C")];
    assert Emit([Executive("-C")]) == ["-E", "-C"] by {
      assert [Executive("-C")][1..] == [];
    }
  }

  lemma EarlierWordRefused(pathOk: string -> bool)
    ensures Generate(Defaults().(executiveType := "-C"), []) == ["-E", "-C"]
    ensures Parse(Defaults(), List(["-E", "-C"]), pathOk) == Err(ExpectedExecutive)
  {
    EarlierWordGenerated();
    var s0 := ParseState(Defaults(), NoPending);
    var s1 := s0.(pend := NoPending.(executiveNext := true));
    var s2 := s0.(pend := NoPending.(executiveNext := true, objNext := true));
    WordOfText(WExecutive);
    WordOfText(WObj);
    ScanPair(s0, "-E", "-C", pathOk);
    assert Step(s0, "-E", pathOk) == Ok(s1);
    assert Step(s1, "-C", pathOk) == Ok(s2);
    assert PendingFlags(s2.pend)[3];
  }

  /** Parsing the tokens of readable options applies them. */
  lemma ParseEmitted(start: Options, us: seq<Unit>, pathOk: string -> bool)
    requires forall i :: 0 <= i < |us| ==> UnitOk(us[i], pathOk)
    ensures Parse(start, List(Emit(us)), pathOk) == Ok(ApplyUnits(start, us))
  {
    UnitsReadBack(start, us, pathOk);
    FinishIdle(ApplyUnits(start, us));
    ParseScanned(start, List(Emit(us)), Emit(us), ApplyUnits(start, us), pathOk);
  }

  /** A list ending with nothing pending yields the fields read. */
  lemma FinishIdle(o: Options)
    ensures Finish(ParseState(o, NoPending)) == Ok(o)
  {
  }

  lemma ParseScanned(start: Options, args: ArgList, toks: seq<string>, o: Options, pathOk: string -> bool)
    requires TokensOf(args) == toks
    requires Scan(ParseState(start, NoPending), toks, pathOk) == Ok(ParseState(o, NoPending))
    requires Finish(ParseState(o, NoPending)) == Ok(o)
    ensures Parse(start, args, pathOk) == Ok(o)
  {
  }

  lemma GeneratedOk(o: Options, order: seq<string>, pathOk: string -> bool)
    requires forall k :: k in order ==> k in o.preprocessorVars
    requires Emittable(o, pathOk)
    ensures forall i :: 0 <= i < |GenerateUnits(o, order)| ==> UnitOk(GenerateUnits(o, order)[i], pathOk)
  {
    LeadingUnitsOk(o, order, pathOk);
    TrailingUnitsOk(o, pathOk);
    AllOkAppend(LeadingUnits(o, order), TrailingUnits(o), pathOk);
  }

  // ---------------------------------------------------------------------
  // Metadata merge and the trait output guard

  /** `dict.setdefault`: add the entry only when the key is missing. */
  function SetDefault<V>(d: map<string, V>, k: string, v: V): (r: map<string, V>)
    ensures r.Keys == d.Keys + {k}
  {
    if k in d then d else d[k := v]
  }

  /** Merge `src` into `dest` visiting `src`'s keys in the iteration order
      `keys`. */
  function Augment<V>(src: map<string, V>, keys: seq<string>, dest: map<string, V>): (r: map<string, V>)
    requires forall k :: k in keys ==> k in src
    ensures forall k :: k in dest ==> k in r && r[k] == dest[k]
    decreases |keys|
  {
    if |keys| == 0 then dest
    else Augment(src, keys[1..], SetDefault(dest, keys[0], src[keys[0]]))
  }

  /** The merge adds exactly the keys missing from `dest`, with `src`'s
      values, whatever the iteration order. */
  lemma {:induction false} AugmentIs<V>(src: map<string, V>, keys: seq<string>, dest: map<string, V>)
    requires forall k :: k in keys ==> k in src
    ensures Augment(src, keys, dest).Keys == dest.Keys + set k | k in keys
    ensures forall k :: k in keys && k !in dest ==> Augment(src, keys, dest)[k] == src[k]
    decreases |keys|
  {
    if |keys| > 0 {
      var k0 := keys[0];
      var d1 := SetDefault(dest, k0, src[k0]);
      AugmentIs(src, keys[1..], d1);
      forall k | k in keys
        ensures k == k0 || k in keys[1..]
      {
        var i :| 0 <= i < |keys| && keys[i] == k;
        if i > 0 {
          assert keys[1..][i - 1] == k;
        }
      }
    }
  }

  /** Merging twice gives the same dictionary as merging once. */
  lemma AugmentIdempotent<V>(src: map<string, V>, keys: seq<string>, dest: map<string, V>)
    requires forall k :: k in keys ==> k in src
    ensures Augment(src, keys, Augment(src, keys, dest)) == Augment(src, keys, dest)
  {
    var once := Augment(src, keys, dest);
    AugmentIs(src, keys, dest);
    AugmentIs(src, keys, once);
  }

  datatype TraitError = OutputTrait(name: string) | InvalidValue(name: string)

  /** Metadata marking an output variable. */
  predicate IsOutput(meta: map<string, string>) {
    "iostatus" in meta && meta["iostatus"] == "out"
  }

  /** An NPSS trait's metadata and whether its engine variable has been
      looked up. */
  datatype NpssTrait = NpssTrait(metadata: map<string, string>, mapped: bool)

  /** Setting an NPSS trait: on first use the engine variable's metadata
      (`engineMeta`, iterated in `engineKeys` order) is merged in; an
      output trait then refuses the write; otherwise the engine's
      validation (`valid`) decides. The trait comes back updated even
      when the write is refused. */
  function SetTrait(t: NpssTrait, name: string, engineMeta: map<string, string>, engineKeys: seq<string>, valid: bool)
    : (r: (NpssTrait, Result<(), TraitError>))
    requires forall k :: k in engineKeys ==> k in engineMeta
    ensures "iostatus" in t.metadata && t.metadata["iostatus"] == "out" ==> r.1 == Err(OutputTrait(name))
    ensures r.1.Ok? ==> valid || !r.0.mapped
    ensures r.0.mapped
    ensures t.mapped ==> r.0.metadata == t.metadata
    ensures !t.mapped ==> r.0.metadata.Keys == t.metadata.Keys + set k | k in engineKeys
    ensures forall k :: k in r.0.metadata ==>
      r.0.metadata[k] == if k in t.metadata then t.metadata[k] else engineMeta[k]
    ensures r.1.Ok? <==> valid && !IsOutput(r.0.metadata)
    ensures IsOutput(r.0.metadata) ==> r.1 == Err(OutputTrait(name))
    ensures !IsOutput(r.0.metadata) && !valid ==> r.1 == Err(InvalidValue(name))
  {
    AugmentIs(engineMeta, engineKeys, t.metadata);
    var meta := if t.mapped then t.metadata else Augment(engineMeta, engineKeys, t.metadata);
    var t1 := NpssTrait(meta, true);
    if "iostatus" in meta && meta["iostatus"] == "out" then (t1, Err(OutputTrait(name)))
    else if !valid then (t1, Err(InvalidValue(name)))
    else (t1, Ok(()))
  }

  /** An engine variable that is an output makes a fresh trait refuse
      every write. */
  lemma EngineOutputRefused(t: NpssTrait, name: string, engineMeta: map<string, string>, engineKeys: seq<string>, valid: bool)
    requires forall k :: k in engineKeys ==> k in engineMeta
    requires !t.mapped && "iostatus" !in t.metadata
    requires "iostatus" in engineKeys && engineMeta["iostatus"] == "out"
    ensures SetTrait(t, name, engineMeta, engineKeys, valid).1 == Err(OutputTrait(name))
  {
    AugmentIs(engineMeta, engineKeys, t.metadata);
  }

  /** An engine variable that is an input lets a fresh trait accept exactly
      the writes the engine validates, and the trait keeps its mapping
      from then on. */
  lemma EngineInputAccepted(t: NpssTrait, name: string, engineMeta: map<string, string>, engineKeys: seq<string>, valid: bool)
    requires forall k :: k in engineKeys ==> k in engineMeta
    requires !t.mapped && "iostatus" !in t.metadata
    requires "iostatus" in engineKeys && engineMeta["iostatus"] == "in"
    ensures SetTrait(t, name, engineMeta, engineKeys, valid).1 == if valid then Ok(()) else Err(InvalidValue(name))
    ensures var t1 := SetTrait(t, name, engineMeta, engineKeys, valid).0;
      forall v :: SetTrait(t1, name, map[], [], v).0 == t1
  {
    AugmentIs(engineMeta, engineKeys, t.metadata);
  }
}
