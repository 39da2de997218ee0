/** split_commandline: arguments become global options and groups of options closed by a file or a separator. */
module CommandLine {
  import opened Wrappers

  datatype OptionDef = OptionDef(name: string, hasArg: bool, isBool: bool, exits: bool, perFile: bool)

  /** What the library makes of an option it may know. */
  datatype Answer = Taken | NotFound | Refused(code: int)

  /** Known options, the separator of each group definition (the first, for outputs, has none), and opt_default. */
  datatype Env = Env(options: seq<OptionDef>, seps: seq<Option<string>>, optDefault: (string, string) -> Answer)

  datatype Opt = Opt(def: nat, key: string, val: Option<string>)

  datatype Group = Group(opts: seq<Opt>, avOpts: seq<(string, string)>, arg: string)

  datatype Context = Context(globals: seq<Opt>, groups: seq<seq<Group>>, opts: seq<Opt>, avOpts: seq<(string, string)>)

  datatype Error = Fine | MissingArgument | Unrecognized | Failure(code: int)

  datatype Parsed = Parsed(context: Context, error: Error)

  predicate ValidContext(e: Env, c: Context) {
    |c.groups| == |e.seps| > 0
  }

  // ----- looking things up

  /** An option's name without the stream specifier after the colon. */
  function Stem(name: string): string {
    if name == "" || name[0] == ':' then "" else [name[0]] + Stem(name[1..])
  }

  /** First definition of that name from i on, or the number of definitions. */
  function OptionFrom(options: seq<OptionDef>, stem: string, i: nat): (r: nat)
    requires i <= |options|
    ensures i <= r <= |options|
    ensures r < |options| ==> options[r].name == stem
    ensures forall j :: i <= j < r ==> options[j].name != stem
    decreases |options| - i
  {
    if i == |options| || options[i].name == stem then i else OptionFrom(options, stem, i + 1)
  }

  function FindOption(e: Env, key: string): (r: nat)
    ensures r <= |e.options| && (r < |e.options| ==> e.options[r].name == Stem(key))
  {
    OptionFrom(e.options, Stem(key), 0)
  }

  function SeparatorFrom(seps: seq<Option<string>>, opt: string, i: nat): (r: nat)
    requires i <= |seps|
    ensures i <= r <= |seps|
    ensures r < |seps| ==> seps[r] == Some(opt)
    decreases |seps| - i
  {
    if i == |seps| || seps[i] == Some(opt) then i else SeparatorFrom(seps, opt, i + 1)
  }

  function MatchSeparator(e: Env, opt: string): (r: nat)
    ensures r <= |e.seps| && (r < |e.seps| ==> e.seps[r] == Some(opt))
  {
    SeparatorFrom(e.seps, opt, 0)
  }

  // ----- one step

  /** The roles in which arguments are consumed. */
  datatype Item =
    | Dashes
    | Unnamed(arg: string)
    | Named(group: nat, sep: string, arg: string)
    | WithArg(def: nat, key: string, arg: string)
    | Flag(def: nat, key: string)
    | Bare(def: nat, key: string)
    | Negated(def: nat, key: string)
    | AvOption(key: string, arg: string)

  /** The arguments an item stands for. */
  function Text(item: Item): (text: seq<string>)
    ensures 0 < |text| <= 2
  {
    match item
    case Dashes => ["--"]
    case Unnamed(arg) => [arg]
    case Named(_, sep, arg) => ["-" + sep, arg]
    case WithArg(_, key, arg) => ["-" + key, arg]
    case Flag(_, key) => ["-" + key]
    case Bare(_, key) => ["-" + key]
    case Negated(_, key) => ["-" + key]
    case AvOption(key, arg) => ["-" + key, arg]
  }

  datatype Lexed = Read(item: Item) | Stop(error: Error)

  /** An option word without its dash, given the arguments after it. */
  function Word(e: Env, key: string, rest: seq<string>): Lexed {
    var group := MatchSeparator(e, key);
    var def := FindOption(e, key);
    if group < |e.seps| then
      if rest == [] then Stop(MissingArgument) else Read(Named(group, key, rest[0]))
    else if def < |e.options| then
      if e.options[def].exits then
        if rest == [] then Read(Bare(def, key)) else Read(WithArg(def, key, rest[0]))
      else if e.options[def].hasArg then
        if rest == [] then Stop(MissingArgument) else Read(WithArg(def, key, rest[0]))
      else Read(Flag(def, key))
    else if rest != [] && e.optDefault(key, rest[0]) != NotFound then
      var answer := e.optDefault(key, rest[0]);
      if answer == Taken then Read(AvOption(key, rest[0])) else Stop(Failure(answer.code))
    else if "no" <= key && FindOption(e, key[2..]) < |e.options| && e.options[FindOption(e, key[2..])].isBool then
      Read(Negated(FindOption(e, key[2..]), key))
    else Stop(Unrecognized)
  }

  /** The next item; dashed says that the argument before was a double dash. */
  function Next(e: Env, args: seq<string>, dashed: bool): Lexed
    requires args != []
  {
    var opt := args[0];
    if opt == "--" then Read(Dashes)
    else if opt == "" || opt[0] != '-' || |opt| == 1 || dashed then Read(Unnamed(opt))
    else Word(e, opt[1..], args[1..])
  }

  /** An item is found at the front of the arguments. */
  lemma NextText(e: Env, args: seq<string>, dashed: bool)
    requires args != [] && Next(e, args, dashed).Read?
    ensures Text(Next(e, args, dashed).item) <= args
  {
    if args[0] != "" && args[0][0] == '-' {
      assert "-" + args[0][1..] == args[0];
    }
  }

  // ----- the context

  function AddOpt(e: Env, c: Context, o: Opt): Context
    requires o.def < |e.options|
  {
    if e.options[o.def].perFile then c.(opts := c.opts + [o]) else c.(globals := c.globals + [o])
  }

  function FinishGroup(c: Context, group: nat, arg: string): (r: Context)
    requires group < |c.groups|
    ensures |r.groups| == |c.groups|
  {
    c.(groups := c.groups[group := c.groups[group] + [Group(c.opts, c.avOpts, arg)]], opts := [], avOpts := [])
  }

  /** The item names definitions that exist. */
  predicate ItemIn(e: Env, item: Item) {
    match item
    case Named(group, _, _) => group < |e.seps|
    case WithArg(def, _, _) => def < |e.options|
    case Flag(def, _) => def < |e.options|
    case Bare(def, _) => def < |e.options|
    case Negated(def, _) => def < |e.options|
    case _ => true
  }

  function Apply(e: Env, c: Context, item: Item): (r: Context)
    requires ItemIn(e, item) && ValidContext(e, c)
    ensures ValidContext(e, r)
  {
    match item
    case Dashes => c
    case Unnamed(arg) => FinishGroup(c, 0, arg)
    case Named(group, _, arg) => FinishGroup(c, group, arg)
    case WithArg(def, key, arg) => AddOpt(e, c, Opt(def, key, Some(arg)))
    case Flag(def, key) => AddOpt(e, c, Opt(def, key, Some("1")))
    case Bare(def, key) => AddOpt(e, c, Opt(def, key, None))
    case Negated(def, key) => AddOpt(e, c, Opt(def, key, Some("0")))
    case AvOption(key, arg) => c.(avOpts := c.avOpts + [(key, arg)])
  }

  /** Splitting what is left of the command line. */
  function Split(e: Env, args: seq<string>, dashed: bool, c: Context): (r: Parsed)
    requires ValidContext(e, c)
    ensures ValidContext(e, r.context)
    decreases |args|
  {
    if args == [] then Parsed(c, Fine)
    else
      match Next(e, args, dashed)
      case Stop(error) => Parsed(c, error)
      case Read(item) =>
        NextText(e, args, dashed);
        Split(e, args[|Text(item)|..], item.Dashes?, Apply(e, c, item))
  }

  function Empty(e: Env): Context {
    Context([], seq(|e.seps|, _ => []), [], [])
  }

  // ----- the imperative form

  class Splitter {
    const env: Env
    var globals: seq<Opt>
    var groups: seq<seq<Group>>
    var opts: seq<Opt>
    var avOpts: seq<(string, string)>

    ghost function View(): Context
      reads this
    {
      Context(globals, groups, opts, avOpts)
    }

    constructor (env: Env)
      requires env.seps != []
      ensures this.env == env && View() == Empty(env)
    {
      this.env := env;
      globals, groups, opts, avOpts := [], seq(|env.seps|, _ => []), [], [];
    }

    method FindOptionIndex(name: string) returns (i: nat)
      ensures i == FindOption(env, name)
    {
      var stem := Stem(name);
      i := 0;
      while i < |env.options|
        invariant i <= |env.options|
        invariant FindOption(env, name) == OptionFrom(env.options, stem, i)
      {
        if env.options[i].name == stem {
          break;
        }
        i := i + 1;
      }
    }

    method MatchGroupSeparator(opt: string) returns (i: nat)
      ensures i == MatchSeparator(env, opt)
    {
      i := 0;
      while i < |env.seps|
        invariant i <= |env.seps|
        invariant MatchSeparator(env, opt) == SeparatorFrom(env.seps, opt, i)
      {
        if env.seps[i] == Some(opt) {
          break;
        }
        i := i + 1;
      }
    }

    method Finish(group: nat, arg: string)
      requires group < |groups|
      modifies this
      ensures View() == FinishGroup(old(View()), group, arg)
    {
      groups := groups[group := groups[group] + [Group(opts, avOpts, arg)]];
      opts, avOpts := [], [];
    }

    method Add(def: nat, key: string, val: Option<string>)
      requires def < |env.options|
      modifies this
      ensures View() == AddOpt(env, old(View()), Opt(def, key, val))
    {
      if env.options[def].perFile {
        opts := opts + [Opt(def, key, val)];
      } else {
        globals := globals + [Opt(def, key, val)];
      }
    }

    /** One option word, key being argv[optindex - 1] without its dash; how many more arguments it takes. */
    method ReadWord(key: string, argv: seq<string>, optindex: nat) returns (error: Error, taken: nat)
      requires optindex <= |argv| && ValidContext(env, View())
      modifies this
      ensures match Word(env, key, argv[optindex..])
        case Stop(e) => error == e && e != Fine && View() == old(View())
        case Read(item) =>
          && error == Fine && ItemIn(env, item) && !item.Dashes?
          && taken + 1 == |Text(item)| && View() == Apply(env, old(View()), item)
    {
      error, taken := Fine, 0;
      var group := MatchGroupSeparator(key);
      if group < |env.seps| {
        if optindex >= |argv| {
          return MissingArgument, 0;
        }
        Finish(group, argv[optindex]);
        return Fine, 1;
      }
      var def := FindOptionIndex(key);
      if def < |env.options| {
        if env.options[def].exits || env.options[def].hasArg {
          if optindex >= |argv| && !env.options[def].exits {
            return MissingArgument, 0;
          }
          if optindex >= |argv| {
            Add(def, key, None);
            return Fine, 0;
          }
          Add(def, key, Some(argv[optindex]));
          return Fine, 1;
        }
        Add(def, key, Some("1"));
        return Fine, 0;
      }
      if optindex < |argv| {
        var answer := env.optDefault(key, argv[optindex]);
        if answer == Taken {
          avOpts := avOpts + [(key, argv[optindex])];
          return Fine, 1;
        }
        if answer != NotFound {
          return Failure(answer.code), 0;
        }
      }
      if "no" <= key {
        def := FindOptionIndex(key[2..]);
        if def < |env.options| && env.options[def].isBool {
          Add(def, key, Some("0"));
          return Fine, 0;
        }
      }
      return Unrecognized, 0;
    }

    method SplitCommandline(argv: seq<string>) returns (error: Error)
      requires argv != [] && ValidContext(env, View())
      modifies this
      ensures Parsed(View(), error) == Split(env, argv[1..], false, old(View()))
    {
      ghost var whole := Split(env, argv[1..], false, View());
      var optindex, dashdash := 1, -2;
      while optindex < |argv|
        invariant 1 <= optindex <= |argv| && ValidContext(env, View())
        invariant dashdash <= optindex
        invariant whole == Split(env, argv[optindex..], dashdash == optindex, View())
      {
        ghost var rest := argv[optindex..];
        ghost var dashed := dashdash == optindex;
        var opt := argv[optindex];
        if Next(env, rest, dashed).Read? {
          NextText(env, rest, dashed);
        }
        optindex := optindex + 1;
        assert rest[1..] == argv[optindex..];
        if opt == "--" {
          dashdash := optindex;
        } else if opt == "" || opt[0] != '-' || |opt| == 1 || dashdash + 1 == optindex {
          Finish(0, opt);
        } else {
          var taken;
          error, taken := ReadWord(opt[1..], argv, optindex);
          if error != Fine {
            return;
          }
          assert rest[1 + taken..] == argv[optindex + taken..];
          optindex := optindex + taken;
        }
      }
      error := Fine;
    }
  }
}
