/** Printing a command line and splitting it again, and the roles of the arguments. */
module CommandLineProofs {
  import opened CommandLine
  import opened Wrappers
  import Slices

  // ----- splitting as reading items and applying them

  /** The items read, and the error that ended the reading. */
  function Items(e: Env, args: seq<string>, dashed: bool): (r: (seq<Item>, Error))
    decreases |args|
  {
    if args == [] then ([], Fine)
    else
      match Next(e, args, dashed)
      case Stop(error) => ([], error)
      case Read(item) =>
        NextText(e, args, dashed);
        var (items, error) := Items(e, args[|Text(item)|..], item.Dashes?);
        ([item] + items, error)
  }

  predicate AllIn(e: Env, items: seq<Item>) {
    forall i :: 0 <= i < |items| ==> ItemIn(e, items[i])
  }

  function Fold(e: Env, c: Context, items: seq<Item>): (r: Context)
    requires AllIn(e, items) && ValidContext(e, c)
    ensures ValidContext(e, r)
    decreases |items|
  {
    if items == [] then c else Fold(e, Apply(e, c, items[0]), items[1..])
  }

  /** The arguments of a sequence of items. */
  function Texts(items: seq<Item>): seq<string> {
    if items == [] then [] else Text(items[0]) + Texts(items[1..])
  }

  lemma {:induction false} SplitFolds(e: Env, args: seq<string>, dashed: bool, c: Context)
    requires ValidContext(e, c)
    ensures var (items, error) := Items(e, args, dashed);
      AllIn(e, items) && Split(e, args, dashed, c) == Parsed(Fold(e, c, items), error)
    decreases |args|
  {
    if args != [] && Next(e, args, dashed).Read? {
      var item := Next(e, args, dashed).item;
      NextText(e, args, dashed);
      SplitFolds(e, args[|Text(item)|..], item.Dashes?, Apply(e, c, item));
    }
  }

  /** Every argument is consumed in one role: the items' texts are the arguments, or those before the error. */
  lemma {:induction false} EveryArgumentOnce(e: Env, args: seq<string>, dashed: bool)
    ensures var (items, error) := Items(e, args, dashed);
      if error == Fine then Texts(items) == args else Texts(items) < args
    decreases |args|
  {
    if args != [] && Next(e, args, dashed).Read? {
      var item := Next(e, args, dashed).item;
      NextText(e, args, dashed);
      var rest := args[|Text(item)|..];
      var items := Items(e, rest, item.Dashes?).0;
      EveryArgumentOnce(e, rest, item.Dashes?);
      assert args == Text(item) + rest;
      TextsMore(item, items);
      if Items(e, rest, item.Dashes?).1 != Fine {
        Slices.Longer(Text(item), Texts(items), rest);
      }
    }
  }

  lemma TextsMore(item: Item, items: seq<Item>)
    ensures Texts([item] + items) == Text(item) + Texts(items)
  {
    assert ([item] + items)[1..] == items;
  }

  // ----- items that read back

  /** Printed in front of anything, the item is read again. */
  predicate Stable(e: Env, item: Item, dashed: bool) {
    match item
    case Dashes => true
    case Unnamed(arg) => arg != "--" && (dashed || arg == "" || arg[0] != '-')
    case Named(group, sep, _) => !dashed && Key(sep) && MatchSeparator(e, sep) == group < |e.seps|
    case WithArg(def, key, _) =>
      && !dashed && Plain(e, key) && FindOption(e, key) == def < |e.options|
      && (e.options[def].exits || e.options[def].hasArg)
    case Flag(def, key) =>
      && !dashed && Plain(e, key) && FindOption(e, key) == def < |e.options|
      && !e.options[def].exits && !e.options[def].hasArg
    case Negated(def, key) =>
      && !dashed && Plain(e, key) && FindOption(e, key) == |e.options| && "no" <= key
      && FindOption(e, key[2..]) == def < |e.options| && e.options[def].isBool && !Claimed(e, key)
    case Bare(_, _) => false
    case AvOption(_, _) => false
  }

  /** Read only where nothing follows: an exit option without argument, and a negation whose name the library knows. */
  predicate StableLast(e: Env, item: Item) {
    match item
    case Bare(def, key) => Plain(e, key) && FindOption(e, key) == def < |e.options| && e.options[def].exits
    case Negated(def, key) =>
      && Plain(e, key) && FindOption(e, key) == |e.options| && "no" <= key
      && FindOption(e, key[2..]) == def < |e.options| && e.options[def].isBool && Claimed(e, key)
    case _ => false
  }

  predicate Key(key: string) {
    key != "" && key != "-"
  }

  predicate Plain(e: Env, key: string) {
    Key(key) && MatchSeparator(e, key) == |e.seps|
  }

  /** The library knows the option. */
  predicate Claimed(e: Env, key: string) {
    e.optDefault(key, "") != NotFound
  }

  /** Whether the library knows an option is a matter of its name alone. */
  ghost predicate KnownByName(e: Env) {
    forall key, arg :: e.optDefault(key, arg) == NotFound <==> !Claimed(e, key)
  }

  lemma StableNext(e: Env, item: Item, dashed: bool, rest: seq<string>)
    requires KnownByName(e) && (Stable(e, item, dashed) || (rest == [] && !dashed && StableLast(e, item)))
    ensures Next(e, Text(item) + rest, dashed) == Read(item)
  {
    var args := Text(item) + rest;
    if |Text(item)| == 2 {
      assert args[1..] == [Text(item)[1]] + rest;
    } else {
      assert args[1..] == rest;
    }
    if !item.Dashes? && !item.Unnamed? {
      var key := Text(item)[0][1..];
      assert args[0] == "-" + key && args[0][1] == key[0];
    }
  }

  /** Each item is stable after the one before it. */
  predicate AllStable(e: Env, items: seq<Item>, dashed: bool)
    decreases |items|
  {
    items == [] || (Stable(e, items[0], dashed) && AllStable(e, items[1..], items[0].Dashes?))
  }

  /** Nothing, or one item that is read only where nothing follows. */
  predicate Tail(e: Env, tail: seq<Item>) {
    tail == [] || (|tail| == 1 && StableLast(e, tail[0]))
  }

  lemma {:induction false} ItemsOfTexts(e: Env, items: seq<Item>, tail: seq<Item>, dashed: bool)
    requires KnownByName(e) && AllStable(e, items, dashed) && Tail(e, tail)
    requires tail != [] ==> !(if items == [] then dashed else items[|items| - 1].Dashes?)
    ensures Items(e, Texts(items + tail), dashed) == (items + tail, Fine)
    decreases |items|
  {
    if items != [] {
      var more := items[1..] + tail;
      ItemsOfTexts(e, items[1..], tail, items[0].Dashes?);
      StableNext(e, items[0], dashed, Texts(more));
      ItemsMore(e, items[0], more, dashed);
      Slices.FirstOver(items, tail);
    } else {
      Slices.Nothing(tail);
      if tail != [] {
        LastText(e, tail[0]);
        assert tail == [tail[0]];
      }
    }
  }

  lemma ItemsMore(e: Env, item: Item, more: seq<Item>, dashed: bool)
    requires Next(e, Text(item) + Texts(more), dashed) == Read(item)
    requires Items(e, Texts(more), item.Dashes?) == (more, Fine)
    ensures Items(e, Texts([item] + more), dashed) == ([item] + more, Fine)
  {
    TextsMore(item, more);
    Slices.Front(Text(item), Texts(more));
  }

  lemma LastText(e: Env, item: Item)
    requires KnownByName(e) && StableLast(e, item)
    ensures Items(e, Texts([item]), false) == ([item], Fine)
  {
    var text := Text(item);
    StableNext(e, item, false, []);
    TextsMore(item, []);
    Slices.Nothing(text);
    Slices.Nothing([item]);
    assert text[|text|..] == [];
  }

  /** Items that can be followed by any others. */
  predicate Closed(e: Env, items: seq<Item>) {
    AllStable(e, items, false) && (items != [] ==> !items[|items| - 1].Dashes?)
  }

  lemma {:induction false} StableAppend(e: Env, a: seq<Item>, b: seq<Item>, dashed: bool)
    requires AllStable(e, a, dashed) && AllStable(e, b, if a == [] then dashed else a[|a| - 1].Dashes?)
    ensures AllStable(e, a + b, dashed)
    decreases |a|
  {
    if a == [] {
      Slices.Nothing(b);
    } else {
      StableAppend(e, a[1..], b, a[0].Dashes?);
      assert (a + b)[1..] == a[1..] + b;
    }
  }

  lemma ClosedAppend(e: Env, a: seq<Item>, b: seq<Item>)
    requires Closed(e, a) && Closed(e, b)
    ensures Closed(e, a + b)
  {
    StableAppend(e, a, b, false);
  }

  lemma {:induction false} StableIn(e: Env, items: seq<Item>, dashed: bool)
    requires AllStable(e, items, dashed)
    ensures AllIn(e, items)
    decreases |items|
  {
    if items != [] {
      StableIn(e, items[1..], items[0].Dashes?);
      forall i | 0 <= i < |items|
        ensures ItemIn(e, items[i])
      {
        if i > 0 {
          assert ItemIn(e, items[1..][i - 1]);
        }
      }
    }
  }

  lemma {:induction false} FoldAppend(e: Env, c: Context, a: seq<Item>, b: seq<Item>)
    requires AllIn(e, a) && AllIn(e, b) && ValidContext(e, c)
    ensures AllIn(e, a + b) && Fold(e, c, a + b) == Fold(e, Fold(e, c, a), b)
    decreases |a|
  {
    if a == [] {
      Slices.Nothing(b);
    } else {
      FoldAppend(e, Apply(e, c, a[0]), a[1..], b);
      assert (a + b)[1..] == a[1..] + b;
    }
  }

  // ----- printing a context

  /** The item that gives an option, told from its key. */
  function OptItem(e: Env, o: Opt): Item
    requires o.def < |e.options|
  {
    if e.options[o.def].name != Stem(o.key) then Negated(o.def, o.key)
    else if e.options[o.def].exits || e.options[o.def].hasArg then
      if o.val.Some? then WithArg(o.def, o.key, o.val.value) else Bare(o.def, o.key)
    else Flag(o.def, o.key)
  }

  /** An option as the splitter stores it, wherever it was given. */
  predicate ValidOpt(e: Env, o: Opt) {
    && o.def < |e.options| && o.val.Some? && Stable(e, OptItem(e, o), false)
    && (OptItem(e, o).Flag? ==> o.val.value == "1") && (OptItem(e, o).Negated? ==> o.val.value == "0")
  }

  /** An option as the splitter stores it when it ended the command line and could not have been given elsewhere. */
  predicate LastOpt(e: Env, o: Opt) {
    && o.def < |e.options| && StableLast(e, OptItem(e, o))
    && o.val == if OptItem(e, o).Negated? then Some("0") else None
  }

  predicate ValidOpts(e: Env, opts: seq<Opt>, perFile: bool) {
    forall i :: 0 <= i < |opts| ==> ValidOpt(e, opts[i]) && e.options[opts[i].def].perFile == perFile
  }

  predicate ValidGroup(e: Env, g: Group) {
    ValidOpts(e, g.opts, true) && g.avOpts == []
  }

  /** The first group definition has no separator, each other one its own. */
  predicate ValidEnv(e: Env) {
    && |e.seps| > 0 && e.seps[0] == None
    && (forall k :: 0 < k < |e.seps| ==>
          e.seps[k].Some? && Key(e.seps[k].value) && MatchSeparator(e, e.seps[k].value) == k)
  }

  /** A context made of options that can be given anywhere, without library options and trailing options. */
  predicate Regular(e: Env, c: Context) {
    && ValidEnv(e) && ValidContext(e, c) && c.opts == [] && c.avOpts == []
    && ValidOpts(e, c.globals, false)
    && (forall k, j :: 0 <= k < |c.groups| && 0 <= j < |c.groups[k]| ==> ValidGroup(e, c.groups[k][j]))
  }

  /** The last global option is one that had to end the command line. */
  predicate EndsLine(e: Env, c: Context) {
    c.globals != [] && LastOpt(e, c.globals[|c.globals| - 1])
  }

  /** All but that option. */
  function Body(e: Env, c: Context): Context {
    if EndsLine(e, c) then c.(globals := c.globals[..|c.globals| - 1]) else c
  }

  /** A context that a command line without library options and trailing options can give. */
  predicate Printable(e: Env, c: Context) {
    Regular(e, Body(e, c)) && (EndsLine(e, c) ==> !e.options[c.globals[|c.globals| - 1].def].perFile)
  }

  predicate Defined(e: Env, opts: seq<Opt>) {
    forall i :: 0 <= i < |opts| ==> opts[i].def < |e.options|
  }

  function OptItems(e: Env, opts: seq<Opt>): seq<Item>
    requires Defined(e, opts)
  {
    if opts == [] then [] else [OptItem(e, opts[0])] + OptItems(e, opts[1..])
  }

  /** What closes a group: its separator and argument, or the file name, behind a double dash if it looks like an option. */
  function Closing(e: Env, k: nat, arg: string): seq<Item>
    requires ValidEnv(e) && k < |e.seps|
  {
    if k > 0 then [Named(k, e.seps[k].value, arg)]
    else if arg != "" && arg[0] == '-' then [Dashes, Unnamed(arg)]
    else [Unnamed(arg)]
  }

  function GroupItems(e: Env, k: nat, groups: seq<Group>): seq<Item>
    requires ValidEnv(e) && k < |e.seps|
    requires forall j :: 0 <= j < |groups| ==> Defined(e, groups[j].opts)
  {
    if groups == [] then []
    else OptItems(e, groups[0].opts) + Closing(e, k, groups[0].arg) + GroupItems(e, k, groups[1..])
  }

  predicate DefinedContext(e: Env, c: Context) {
    && ValidEnv(e) && ValidContext(e, c) && Defined(e, c.globals)
    && (forall k, j :: 0 <= k < |c.groups| && 0 <= j < |c.groups[k]| ==> Defined(e, c.groups[k][j].opts))
  }

  /** The groups with separators, from the k-th kind on. */
  function NamedItems(e: Env, c: Context, k: nat): seq<Item>
    requires DefinedContext(e, c)
    decreases |c.groups| - k
  {
    if k >= |c.groups| then [] else GroupItems(e, k, c.groups[k]) + NamedItems(e, c, k + 1)
  }

  /** Global options, then the groups with separators, then the output files. */
  function ContextItems(e: Env, c: Context): seq<Item>
    requires DefinedContext(e, c)
  {
    OptItems(e, c.globals) + NamedItems(e, c, 1) + GroupItems(e, 0, c.groups[0])
  }

  /** The option that ends the command line, if there is one. */
  function LastItems(e: Env, c: Context): (r: seq<Item>)
    ensures Tail(e, r)
  {
    if EndsLine(e, c) then [OptItem(e, c.globals[|c.globals| - 1])] else []
  }

  function Print(e: Env, c: Context): seq<string>
    requires DefinedContext(e, Body(e, c))
  {
    Texts(ContextItems(e, Body(e, c)) + LastItems(e, c))
  }

  lemma RegularDefined(e: Env, c: Context)
    requires Regular(e, c)
    ensures DefinedContext(e, c)
  {
    forall k, j | 0 <= k < |c.groups| && 0 <= j < |c.groups[k]|
      ensures Defined(e, c.groups[k][j].opts)
    {
      assert ValidGroup(e, c.groups[k][j]);
    }
  }

  // ----- the round trip

  lemma {:induction false} OptsClosed(e: Env, opts: seq<Opt>, perFile: bool)
    requires ValidOpts(e, opts, perFile)
    ensures Defined(e, opts) && Closed(e, OptItems(e, opts))
  {
    if opts != [] {
      assert ValidOpt(e, opts[0]);
      OptsClosed(e, opts[1..], perFile);
      ClosedAppend(e, [OptItem(e, opts[0])], OptItems(e, opts[1..]));
    }
  }

  /** The options are added where they belong. */
  lemma {:induction false} FoldOpts(e: Env, c: Context, opts: seq<Opt>, perFile: bool)
    requires ValidOpts(e, opts, perFile) && ValidContext(e, c)
    ensures Defined(e, opts) && AllIn(e, OptItems(e, opts))
    ensures Fold(e, c, OptItems(e, opts))
            == if perFile then c.(opts := c.opts + opts) else c.(globals := c.globals + opts)
    decreases |opts|
  {
    OptsClosed(e, opts, perFile);
    StableIn(e, OptItems(e, opts), false);
    if opts == [] {
      Slices.Nothing(c.opts);
      Slices.Nothing(c.globals);
    } else {
      assert ValidOpt(e, opts[0]);
      assert Apply(e, c, OptItem(e, opts[0])) == AddOpt(e, c, opts[0]);
      FoldOpts(e, AddOpt(e, c, opts[0]), opts[1..], perFile);
      assert OptItems(e, opts)[1..] == OptItems(e, opts[1..]);
      assert opts == [opts[0]] + opts[1..];
      Slices.Assoc(c.opts, [opts[0]], opts[1..]);
      Slices.Assoc(c.globals, [opts[0]], opts[1..]);
    }
  }

  predicate ValidGroups(e: Env, k: nat, groups: seq<Group>) {
    forall j :: 0 <= j < |groups| ==> ValidGroup(e, groups[j]) && (k == 0 ==> groups[j].arg != "--")
  }

  lemma ClosingClosed(e: Env, k: nat, arg: string)
    requires ValidEnv(e) && k < |e.seps| && (k == 0 ==> arg != "--")
    ensures Closed(e, Closing(e, k, arg))
  {
    var items := Closing(e, k, arg);
    if |items| == 2 {
      assert items[1..] == [Unnamed(arg)] && [Unnamed(arg)][1..] == [];
    } else {
      assert items[1..] == [];
    }
  }

  lemma {:induction false} GroupsClosed(e: Env, k: nat, groups: seq<Group>)
    requires ValidEnv(e) && k < |e.seps| && ValidGroups(e, k, groups)
    ensures forall j :: 0 <= j < |groups| ==> Defined(e, groups[j].opts)
    ensures Closed(e, GroupItems(e, k, groups))
  {
    if groups != [] {
      var g := groups[0];
      assert ValidGroup(e, g);
      OptsClosed(e, g.opts, true);
      ClosingClosed(e, k, g.arg);
      GroupsClosed(e, k, groups[1..]);
      ClosedAppend(e, OptItems(e, g.opts), Closing(e, k, g.arg));
      ClosedAppend(e, OptItems(e, g.opts) + Closing(e, k, g.arg), GroupItems(e, k, groups[1..]));
    }
  }

  lemma FoldClosing(e: Env, c: Context, k: nat, arg: string)
    requires ValidEnv(e) && k < |e.seps| && ValidContext(e, c)
    ensures AllIn(e, Closing(e, k, arg)) && Fold(e, c, Closing(e, k, arg)) == FinishGroup(c, k, arg)
  {
    var items := Closing(e, k, arg);
    if |items| == 2 {
      assert items[1..] == [Unnamed(arg)] && [Unnamed(arg)][1..] == [];
      assert Fold(e, c, [Unnamed(arg)]) == FinishGroup(c, 0, arg);
    } else {
      assert items[1..] == [] && Fold(e, Apply(e, c, items[0]), []) == Apply(e, c, items[0]);
    }
  }

  /** One group's options and what closes it append that group. */
  lemma FoldGroup(e: Env, c: Context, k: nat, g: Group)
    requires ValidEnv(e) && k < |e.seps| && ValidContext(e, c) && ValidGroup(e, g) && c.opts == [] && c.avOpts == []
    ensures Defined(e, g.opts) && AllIn(e, OptItems(e, g.opts) + Closing(e, k, g.arg))
    ensures Fold(e, c, OptItems(e, g.opts) + Closing(e, k, g.arg))
            == c.(groups := c.groups[k := c.groups[k] + [g]])
  {
    FoldOpts(e, c, g.opts, true);
    Slices.Nothing(g.opts);
    FoldClosing(e, c.(opts := g.opts), k, g.arg);
    FoldAppend(e, c, OptItems(e, g.opts), Closing(e, k, g.arg));
  }

  lemma {:induction false} FoldGroups(e: Env, c: Context, k: nat, groups: seq<Group>)
    requires ValidEnv(e) && k < |e.seps| && ValidContext(e, c) && c.opts == [] && c.avOpts == []
    requires forall j :: 0 <= j < |groups| ==> ValidGroup(e, groups[j])
    ensures forall j :: 0 <= j < |groups| ==> Defined(e, groups[j].opts)
    ensures AllIn(e, GroupItems(e, k, groups))
    ensures Fold(e, c, GroupItems(e, k, groups)) == c.(groups := c.groups[k := c.groups[k] + groups])
    decreases |groups|
  {
    if groups == [] {
      Slices.Nothing(c.groups[k]);
      assert c.groups[k := c.groups[k]] == c.groups;
    } else {
      var g := groups[0];
      assert ValidGroup(e, g);
      var d := c.(groups := c.groups[k := c.groups[k] + [g]]);
      FoldGroup(e, c, k, g);
      FoldGroups(e, d, k, groups[1..]);
      FoldAppend(e, c, OptItems(e, g.opts) + Closing(e, k, g.arg), GroupItems(e, k, groups[1..]));
      assert groups == [g] + groups[1..];
      Slices.Assoc(c.groups[k], [g], groups[1..]);
      assert d.groups[k := d.groups[k] + groups[1..]] == c.groups[k := c.groups[k] + groups];
    }
  }

  /** The kinds of groups from k on, moved over from c. */
  function Moved(c: Context, b: Context, k: nat): Context
    requires |c.groups| == |b.groups|
  {
    b.(groups := seq(|b.groups|, j requires 0 <= j < |b.groups| =>
                       if j >= k then b.groups[j] + c.groups[j] else b.groups[j]))
  }

  lemma {:induction false} FoldNamed(e: Env, c: Context, b: Context, k: nat)
    requires Regular(e, c) && 0 < k && ValidContext(e, b) && b.opts == [] && b.avOpts == []
    ensures DefinedContext(e, c) && AllIn(e, NamedItems(e, c, k)) && Fold(e, b, NamedItems(e, c, k)) == Moved(c, b, k)
    decreases |c.groups| - k
  {
    RegularDefined(e, c);
    if k >= |c.groups| {
      assert Moved(c, b, k).groups == b.groups;
    } else {
      var d := b.(groups := b.groups[k := b.groups[k] + c.groups[k]]);
      FoldGroups(e, b, k, c.groups[k]);
      FoldNamed(e, c, d, k + 1);
      FoldAppend(e, b, GroupItems(e, k, c.groups[k]), NamedItems(e, c, k + 1));
      assert Moved(c, d, k + 1).groups == Moved(c, b, k).groups;
    }
  }

  lemma {:induction false} NamedClosed(e: Env, c: Context, k: nat)
    requires Regular(e, c) && 0 < k
    ensures DefinedContext(e, c) && Closed(e, NamedItems(e, c, k))
    decreases |c.groups| - k
  {
    RegularDefined(e, c);
    if k < |c.groups| {
      GroupsClosed(e, k, c.groups[k]);
      NamedClosed(e, c, k + 1);
      ClosedAppend(e, GroupItems(e, k, c.groups[k]), NamedItems(e, c, k + 1));
    }
  }

  /** No output file is called like the double dash. */
  predicate NoDashesFile(c: Context)
    requires |c.groups| > 0
  {
    forall j :: 0 <= j < |c.groups[0]| ==> c.groups[0][j].arg != "--"
  }

  lemma MovedAll(e: Env, c: Context)
    requires ValidContext(e, c) && c.opts == [] && c.avOpts == []
    ensures Moved(c, Empty(e).(globals := c.globals), 1) == c.(groups := c.groups[0 := []])
  {
    var b := Empty(e).(globals := c.globals);
    forall j | 0 <= j < |c.groups|
      ensures Moved(c, b, 1).groups[j] == c.groups[0 := []][j]
    {
      Slices.Nothing(c.groups[j]);
    }
  }

  lemma HeadRebuild(e: Env, c: Context)
    requires Regular(e, c)
    ensures DefinedContext(e, c) && AllIn(e, OptItems(e, c.globals) + NamedItems(e, c, 1))
    ensures Fold(e, Empty(e), OptItems(e, c.globals) + NamedItems(e, c, 1)) == c.(groups := c.groups[0 := []])
  {
    RegularDefined(e, c);
    var b := Empty(e).(globals := c.globals);
    FoldOpts(e, Empty(e), c.globals, false);
    Slices.Nothing(c.globals);
    FoldNamed(e, c, b, 1);
    FoldAppend(e, Empty(e), OptItems(e, c.globals), NamedItems(e, c, 1));
    MovedAll(e, c);
  }

  lemma ItemsRebuild(e: Env, c: Context)
    requires Regular(e, c)
    ensures DefinedContext(e, c) && AllIn(e, ContextItems(e, c)) && Fold(e, Empty(e), ContextItems(e, c)) == c
  {
    var d := c.(groups := c.groups[0 := []]);
    HeadRebuild(e, c);
    FoldGroups(e, d, 0, c.groups[0]);
    FoldAppend(e, Empty(e), OptItems(e, c.globals) + NamedItems(e, c, 1), GroupItems(e, 0, c.groups[0]));
    Slices.Nothing(c.groups[0]);
    assert d.groups[0 := c.groups[0]] == c.groups;
  }

  lemma ItemsClosed(e: Env, c: Context)
    requires Regular(e, c) && NoDashesFile(c)
    ensures DefinedContext(e, c) && Closed(e, ContextItems(e, c))
  {
    RegularDefined(e, c);
    OptsClosed(e, c.globals, false);
    NamedClosed(e, c, 1);
    GroupsClosed(e, 0, c.groups[0]);
    ClosedAppend(e, OptItems(e, c.globals), NamedItems(e, c, 1));
    ClosedAppend(e, OptItems(e, c.globals) + NamedItems(e, c, 1), GroupItems(e, 0, c.groups[0]));
  }

  /** A double dash is never taken for an output file. */
  lemma {:induction false} DashesNeverFile(e: Env, args: seq<string>, dashed: bool, c: Context)
    requires ValidContext(e, c) && e.seps[0] == None && NoDashesFile(c)
    ensures NoDashesFile(Split(e, args, dashed, c).context)
    decreases |args|
  {
    if args != [] && Next(e, args, dashed).Read? {
      var item := Next(e, args, dashed).item;
      NextText(e, args, dashed);
      assert NoDashesFile(Apply(e, c, item));
      DashesNeverFile(e, args[|Text(item)|..], item.Dashes?, Apply(e, c, item));
    }
  }

  /** What an option item does to a context, told from the option it stores. */
  lemma ApplyOpt(e: Env, c: Context, o: Opt)
    requires ValidContext(e, c) && (ValidOpt(e, o) || LastOpt(e, o))
    ensures ItemIn(e, OptItem(e, o)) && Apply(e, c, OptItem(e, o)) == AddOpt(e, c, o)
  {
  }

  lemma PrintSplits(e: Env, c: Context)
    requires KnownByName(e) && Printable(e, c) && NoDashesFile(c)
    ensures DefinedContext(e, Body(e, c)) && Split(e, Print(e, c), false, Empty(e)) == Parsed(c, Fine)
  {
    var body, items := Body(e, c), ContextItems(e, Body(e, c));
    ItemsClosed(e, body);
    ItemsRebuild(e, body);
    ItemsOfTexts(e, items, LastItems(e, c), false);
    SplitFolds(e, Print(e, c), false, Empty(e));
    LastRebuild(e, c, items);
  }

  /** The option that ends the line goes on top of the rest. */
  lemma LastRebuild(e: Env, c: Context, items: seq<Item>)
    requires Printable(e, c) && AllIn(e, items) && Fold(e, Empty(e), items) == Body(e, c)
    ensures AllIn(e, items + LastItems(e, c)) && Fold(e, Empty(e), items + LastItems(e, c)) == c
  {
    var last := LastItems(e, c);
    if EndsLine(e, c) {
      var n := |c.globals| - 1;
      ApplyOpt(e, Body(e, c), c.globals[n]);
      FoldAppend(e, Empty(e), items, last);
      assert Fold(e, Body(e, c), last) == Apply(e, Body(e, c), last[0]);
      assert c.globals[..n] + [c.globals[n]] == c.globals;
    } else {
      Slices.Nothing(items);
    }
  }

  /** Printing a context and splitting it gives it back, exactly if no output file is named with a double dash. */
  lemma RoundTrip(e: Env, c: Context)
    requires KnownByName(e) && Printable(e, c)
    ensures DefinedContext(e, Body(e, c))
    ensures Split(e, Print(e, c), false, Empty(e)) == Parsed(c, Fine) <==> NoDashesFile(c)
  {
    RegularDefined(e, Body(e, c));
    if NoDashesFile(c) {
      PrintSplits(e, c);
    } else {
      DashesNeverFile(e, Print(e, c), false, Empty(e));
    }
  }

  // ----- and these are all the contexts there are

  /** No library option is stored anywhere. */
  predicate NoLibrary(c: Context) {
    c.avOpts == [] && forall k, j :: 0 <= k < |c.groups| && 0 <= j < |c.groups[k]| ==> c.groups[k][j].avOpts == []
  }

  /** What is stored at any time while no library option is. */
  predicate Sound(e: Env, c: Context) {
    && ValidEnv(e) && ValidContext(e, c) && NoLibrary(c)
    && ValidOpts(e, c.globals, false) && ValidOpts(e, c.opts, true)
    && forall k :: 0 <= k < |c.groups| ==> forall j :: 0 <= j < |c.groups[k]| ==> ValidOpts(e, c.groups[k][j].opts, true)
  }

  /** Library options stay where they are stored. */
  lemma LibraryStays(e: Env, c: Context, item: Item)
    requires ItemIn(e, item) && ValidContext(e, c) && NoLibrary(Apply(e, c, item))
    ensures NoLibrary(c) && !item.AvOption?
  {
    var d := Apply(e, c, item);
    if item.Unnamed? || item.Named? {
      var group := if item.Named? then item.group else 0;
      var n := |c.groups[group]|;
      assert d.groups[group][n] == Group(c.opts, c.avOpts, item.arg);
      forall k, j | 0 <= k < |c.groups| && 0 <= j < |c.groups[k]|
        ensures c.groups[k][j].avOpts == []
      {
        assert d.groups[k][j] == c.groups[k][j];
      }
    }
  }

  lemma {:induction false} LibraryNeverLeaves(e: Env, args: seq<string>, dashed: bool, c: Context)
    requires ValidContext(e, c) && NoLibrary(Split(e, args, dashed, c).context)
    ensures NoLibrary(c)
    decreases |args|
  {
    if args != [] && Next(e, args, dashed).Read? {
      var item := Next(e, args, dashed).item;
      NextText(e, args, dashed);
      LibraryNeverLeaves(e, args[|Text(item)|..], item.Dashes?, Apply(e, c, item));
      LibraryStays(e, c, item);
    }
  }

  /** The option an item stores. */
  function Stored(item: Item): Opt
    requires item.WithArg? || item.Flag? || item.Bare? || item.Negated?
  {
    match item
    case WithArg(def, key, arg) => Opt(def, key, Some(arg))
    case Flag(def, key) => Opt(def, key, Some("1"))
    case Bare(def, key) => Opt(def, key, None)
    case Negated(def, key) => Opt(def, key, Some("0"))
  }

  /** An option that was read is one that can be given anywhere, or nothing follows it. */
  lemma ReadOpt(e: Env, args: seq<string>, dashed: bool)
    requires ValidEnv(e) && KnownByName(e) && args != [] && Next(e, args, dashed).Read?
    requires var item := Next(e, args, dashed).item; item.WithArg? || item.Flag? || item.Bare? || item.Negated?
    ensures var item := Next(e, args, dashed).item;
      && Stored(item).def < |e.options| && OptItem(e, Stored(item)) == item
      && if ValidOpt(e, Stored(item)) then true else LastOpt(e, Stored(item)) && |Text(item)| == |args|
  {
    var item := Next(e, args, dashed).item;
    assert Key(args[0][1..]);
    assert item.Negated? ==> e.options[item.def].name != Stem(item.key);
  }

  lemma SoundStep(e: Env, args: seq<string>, dashed: bool, c: Context)
    requires KnownByName(e) && Sound(e, c) && args != [] && Next(e, args, dashed).Read?
    requires ItemIn(e, Next(e, args, dashed).item) && NoLibrary(Apply(e, c, Next(e, args, dashed).item))
    ensures var item := Next(e, args, dashed).item;
      || Sound(e, Apply(e, c, item))
      || (|Text(item)| == |args| && exists o :: LastOpt(e, o) && Apply(e, c, item) == AddOpt(e, c, o))
  {
    var item := Next(e, args, dashed).item;
    LibraryStays(e, c, item);
    if item.Unnamed? || item.Named? {
      SoundFinish(e, c, if item.Named? then item.group else 0, item.arg);
    } else if !item.Dashes? {
      ReadOpt(e, args, dashed);
    }
  }

  lemma SoundFinish(e: Env, c: Context, group: nat, arg: string)
    requires Sound(e, c) && group < |c.groups|
    ensures Sound(e, FinishGroup(c, group, arg))
  {
  }

  /** A successful split that ends without library and trailing options gives a printable context. */
  lemma {:induction false} SplitPrintable(e: Env, args: seq<string>, dashed: bool, c: Context)
    requires KnownByName(e) && Sound(e, c) && Split(e, args, dashed, c).error == Fine
    requires NoLibrary(Split(e, args, dashed, c).context) && Split(e, args, dashed, c).context.opts == []
    ensures Printable(e, Split(e, args, dashed, c).context)
    decreases |args|
  {
    if args == [] {
      SoundPrintable(e, c);
    } else {
      var item := Next(e, args, dashed).item;
      NextText(e, args, dashed);
      var rest, d := args[|Text(item)|..], Apply(e, c, item);
      LibraryNeverLeaves(e, rest, item.Dashes?, d);
      SoundStep(e, args, dashed, c);
      if Sound(e, d) {
        SplitPrintable(e, rest, item.Dashes?, d);
      } else {
        var o :| LastOpt(e, o) && d == AddOpt(e, c, o);
        assert rest == [];
        LastPrintable(e, c, o);
      }
    }
  }

  lemma SoundPrintable(e: Env, c: Context)
    requires Sound(e, c) && c.opts == []
    ensures Printable(e, c)
  {
    if c.globals != [] {
      var o := c.globals[|c.globals| - 1];
      assert ValidOpt(e, o);
      assert !LastOpt(e, o);
    }
  }

  lemma LastPrintable(e: Env, c: Context, o: Opt)
    requires Sound(e, c) && LastOpt(e, o) && AddOpt(e, c, o).opts == []
    ensures Printable(e, AddOpt(e, c, o))
  {
    var d := AddOpt(e, c, o);
    assert d.globals[..|d.globals| - 1] == c.globals;
    assert Body(e, d) == c;
  }

  /** The contexts that some command line without library options and trailing options gives are exactly the printable ones. */
  lemma PrintableExactly(e: Env, c: Context)
    requires ValidEnv(e) && KnownByName(e)
    ensures NoLibrary(c) && c.opts == [] && (exists args :: Split(e, args, false, Empty(e)) == Parsed(c, Fine))
      <==> Printable(e, c) && NoDashesFile(c)
  {
    if NoLibrary(c) && c.opts == [] && exists args :: Split(e, args, false, Empty(e)) == Parsed(c, Fine) {
      var args :| Split(e, args, false, Empty(e)) == Parsed(c, Fine);
      SplitPrintable(e, args, false, Empty(e));
      DashesNeverFile(e, args, false, Empty(e));
    }
    if Printable(e, c) && NoDashesFile(c) {
      PrintSplits(e, c);
      forall k, j | 0 <= k < |c.groups| && 0 <= j < |c.groups[k]|
        ensures c.groups[k][j].avOpts == []
      {
        assert ValidGroup(e, Body(e, c).groups[k][j]);
      }
    }
  }
}
