/** What each argument means and where it ends up, told from the texts and the definitions. */
module CommandLineRules {
  import opened CommandLine
  import opened CommandLineProofs
  import opened Wrappers
  import Slices

  // ----- looking things up

  /** name is the key, or the part of it before its first colon. */
  predicate NameOf(name: string, key: string) {
    name <= key && ':' !in name && (|name| < |key| ==> key[|name|] == ':')
  }

  lemma {:induction false} StemIsName(key: string)
    ensures NameOf(Stem(key), key)
  {
    if key != "" && key[0] != ':' {
      StemIsName(key[1..]);
      assert key == [key[0]] + key[1..];
    }
  }

  lemma {:induction false} NameIsStem(name: string, key: string)
    requires NameOf(name, key)
    ensures name == Stem(key)
  {
    if key != "" && key[0] != ':' {
      NameIsStem(name[1..], key[1..]);
    }
  }

  /** The first definition of a name. */
  predicate Defines(e: Env, name: string, d: nat) {
    d < |e.options| && e.options[d].name == name && forall j :: 0 <= j < d ==> e.options[j].name != name
  }

  predicate Undefined(e: Env, name: string) {
    forall j :: 0 <= j < |e.options| ==> e.options[j].name != name
  }

  lemma FindsFirst(e: Env, key: string, name: string)
    requires NameOf(name, key)
    ensures forall d: nat :: Defines(e, name, d) ==> FindOption(e, key) == d
    ensures Undefined(e, name) ==> FindOption(e, key) == |e.options|
  {
    NameIsStem(name, key);
    var r := OptionFrom(e.options, name, 0);
    assert FindOption(e, key) == r;
  }

  /** The first group definition with that separator. */
  predicate Separates(e: Env, key: string, g: nat) {
    g < |e.seps| && e.seps[g] == Some(key) && forall j :: 0 <= j < g ==> e.seps[j] != Some(key)
  }

  predicate NoSeparator(e: Env, key: string) {
    forall j :: 0 <= j < |e.seps| ==> e.seps[j] != Some(key)
  }

  lemma {:induction false} SeparatorFirst(seps: seq<Option<string>>, opt: string, i: nat, r: nat)
    requires i <= |seps| && r == SeparatorFrom(seps, opt, i)
    ensures forall j :: i <= j < r ==> seps[j] != Some(opt)
    decreases |seps| - i
  {
    if i < |seps| && seps[i] != Some(opt) {
      SeparatorFirst(seps, opt, i + 1, r);
    }
  }

  lemma MatchesFirst(e: Env, key: string)
    ensures forall g: nat :: Separates(e, key, g) ==> MatchSeparator(e, key) == g
    ensures NoSeparator(e, key) ==> MatchSeparator(e, key) == |e.seps|
  {
    SeparatorFirst(e.seps, key, 0, MatchSeparator(e, key));
  }

  // ----- the role of an argument

  /** A word that is not an option: anything after a double dash, a lone dash, and what does not begin with one. */
  lemma FileWord(e: Env, args: seq<string>, dashed: bool)
    requires args != [] && args[0] != "--"
    ensures Next(e, args, dashed) == Read(Unnamed(args[0]))
      <==> dashed || args[0] == "" || args[0] == "-" || args[0][0] != '-'
    ensures dashed || args[0] == "" || args[0] == "-" || args[0][0] != '-' || Next(e, args, dashed) == Word(e, args[0][1..], args[1..])
  {
  }

  /** A separator takes the next argument, and comes before an option of its name. */
  lemma SeparatorWord(e: Env, key: string, rest: seq<string>, g: nat)
    requires Separates(e, key, g)
    ensures Word(e, key, rest) == if rest == [] then Stop(MissingArgument) else Read(Named(g, key, rest[0]))
  {
    MatchesFirst(e, key);
  }

  /** A known option takes the next argument if it needs one or ends the program, and counts as 1 if it takes none. */
  lemma OptionWord(e: Env, key: string, rest: seq<string>, name: string, d: nat)
    requires NoSeparator(e, key) && NameOf(name, key) && Defines(e, name, d)
    ensures (e.options[d].hasArg || e.options[d].exits) && rest != [] ==> Word(e, key, rest) == Read(WithArg(d, key, rest[0]))
    ensures e.options[d].exits && rest == [] ==> Word(e, key, rest) == Read(Bare(d, key))
    ensures e.options[d].hasArg && !e.options[d].exits && rest == [] ==> Word(e, key, rest) == Stop(MissingArgument)
    ensures !e.options[d].hasArg && !e.options[d].exits ==> Word(e, key, rest) == Read(Flag(d, key))
  {
    MatchesFirst(e, key);
    FindsFirst(e, key, name);
  }

  /** An unknown one goes to the library with the next argument, and fails as the library says. */
  lemma LibraryWord(e: Env, key: string, rest: seq<string>, name: string)
    requires NoSeparator(e, key) && NameOf(name, key) && Undefined(e, name)
    requires rest != [] && e.optDefault(key, rest[0]) != NotFound
    ensures e.optDefault(key, rest[0]) == Taken ==> Word(e, key, rest) == Read(AvOption(key, rest[0]))
    ensures e.optDefault(key, rest[0]).Refused? ==> Word(e, key, rest) == Stop(Failure(e.optDefault(key, rest[0]).code))
  {
    MatchesFirst(e, key);
    FindsFirst(e, key, name);
  }

  /** One that the library does not know either may negate an option without argument; else it is an error. */
  lemma UnknownWord(e: Env, key: string, rest: seq<string>, name: string, stem: string, positive: string)
    requires NoSeparator(e, key) && NameOf(name, key) && Undefined(e, name)
    requires rest == [] || e.optDefault(key, rest[0]) == NotFound
    requires "no" <= key ==> key == "no" + positive && NameOf(stem, positive)
    ensures forall d: nat :: "no" <= key && Defines(e, stem, d) && e.options[d].isBool ==>
      Word(e, key, rest) == Read(Negated(d, key))
    ensures !("no" <= key) || Undefined(e, stem) || (exists d: nat :: Defines(e, stem, d) && !e.options[d].isBool) ==>
      Word(e, key, rest) == Stop(Unrecognized)
  {
    MatchesFirst(e, key);
    FindsFirst(e, key, name);
    if "no" <= key {
      assert key[2..] == positive;
      FindsFirst(e, positive, stem);
    }
  }

  // ----- where the items end up

  /** The option an item gives, with its value: the argument, 1 for a flag, 0 for a negated one. */
  function Given(item: Item): seq<Opt> {
    match item
    case WithArg(def, key, arg) => [Opt(def, key, Some(arg))]
    case Flag(def, key) => [Opt(def, key, Some("1"))]
    case Bare(def, key) => [Opt(def, key, None)]
    case Negated(def, key) => [Opt(def, key, Some("0"))]
    case _ => []
  }

  /** The options of one kind given in the items: those per file, or the others. */
  function Options(e: Env, items: seq<Item>, perFile: bool): seq<Opt>
    requires AllIn(e, items)
  {
    if items == [] then []
    else
      var n := |items| - 1;
      Options(e, items[..n], perFile)
      + if Given(items[n]) != [] && e.options[Given(items[n])[0].def].perFile == perFile then Given(items[n]) else []
  }

  function Library(items: seq<Item>): seq<(string, string)> {
    if items == [] then []
    else
      var n := |items| - 1;
      Library(items[..n]) + if items[n].AvOption? then [(items[n].key, items[n].arg)] else []
  }

  predicate Closes(item: Item) {
    item.Unnamed? || item.Named?
  }

  /** The items after the last one that closes a group. */
  function Open(items: seq<Item>): (r: seq<Item>)
    ensures |r| <= |items| && r == items[|items| - |r|..] && forall x :: x in r ==> !Closes(x)
    ensures |r| < |items| ==> Closes(items[|items| - |r| - 1])
  {
    if items == [] || Closes(items[|items| - 1]) then []
    else
      var n := |items| - 1;
      var r := Open(items[..n]) + [items[n]];
      assert items == items[..n] + [items[n]];
      r
  }

  /** The groups of kind k: one for each item that closes such a group, with the options given since the group before. */
  function GroupsOf(e: Env, items: seq<Item>, k: nat): seq<Group>
    requires AllIn(e, items)
  {
    if items == [] then []
    else
      var n := |items| - 1;
      var since := Open(items[..n]);
      GroupsOf(e, items[..n], k)
      + if (items[n].Unnamed? && k == 0) || (items[n].Named? && items[n].group == k)
        then [Group(Options(e, since, true), Library(since), items[n].arg)] else []
  }

  /** The context that items make. */
  ghost predicate MadeOf(e: Env, items: seq<Item>, c: Context)
    requires AllIn(e, items)
  {
    && c.globals == Options(e, items, false)
    && |c.groups| == |e.seps| && (forall k :: 0 <= k < |c.groups| ==> c.groups[k] == GroupsOf(e, items, k))
    && c.opts == Options(e, Open(items), true) && c.avOpts == Library(Open(items))
  }

  lemma OptionsLast(e: Env, items: seq<Item>, x: Item, perFile: bool)
    requires AllIn(e, items) && ItemIn(e, x)
    ensures AllIn(e, items + [x])
    ensures Options(e, items + [x], perFile)
      == Options(e, items, perFile) + if Given(x) != [] && e.options[Given(x)[0].def].perFile == perFile then Given(x) else []
  {
    Slices.Front(items, [x]);
  }

  lemma OpenLast(items: seq<Item>, x: Item)
    ensures Open(items + [x]) == if Closes(x) then [] else Open(items) + [x]
  {
    Slices.Front(items, [x]);
  }

  lemma LibraryLast(items: seq<Item>, x: Item)
    ensures Library(items + [x]) == Library(items) + if x.AvOption? then [(x.key, x.arg)] else []
  {
    Slices.Front(items, [x]);
  }

  lemma GroupsLast(e: Env, items: seq<Item>, x: Item, k: nat)
    requires AllIn(e, items) && ItemIn(e, x)
    ensures AllIn(e, items + [x])
    ensures GroupsOf(e, items + [x], k) == GroupsOf(e, items, k)
      + if (x.Unnamed? && k == 0) || (x.Named? && x.group == k)
        then [Group(Options(e, Open(items), true), Library(Open(items)), x.arg)] else []
  {
    Slices.Front(items, [x]);
  }

  /** The part of an item's option that goes to one kind. */
  function Kept(e: Env, x: Item, perFile: bool): seq<Opt>
    requires ItemIn(e, x)
  {
    if Given(x) != [] && e.options[Given(x)[0].def].perFile == perFile then Given(x) else []
  }

  /** What one item changes. */
  lemma ApplyChanges(e: Env, c: Context, x: Item, d: Context)
    requires ItemIn(e, x) && ValidContext(e, c) && d == Apply(e, c, x)
    ensures d.globals == c.globals + Kept(e, x, false) && |d.groups| == |c.groups|
    ensures Closes(x) ==> d.opts == [] && d.avOpts == []
    ensures !Closes(x) ==> d.opts == c.opts + Kept(e, x, true) && d.groups == c.groups
    ensures !Closes(x) ==> d.avOpts == c.avOpts + if x.AvOption? then [(x.key, x.arg)] else []
  {
    Slices.Nothing(c.globals);
    Slices.Nothing(c.opts);
    Slices.Nothing(c.avOpts);
  }

  lemma ApplyCloses(e: Env, c: Context, x: Item, d: Context, k: nat)
    requires ItemIn(e, x) && ValidContext(e, c) && d == Apply(e, c, x) && k < |c.groups|
    ensures d.groups[k] == c.groups[k]
      + if (x.Unnamed? && k == 0) || (x.Named? && x.group == k) then [Group(c.opts, c.avOpts, x.arg)] else []
  {
    Slices.Nothing(c.groups[k]);
  }

  lemma GroupMore(e: Env, items: seq<Item>, c: Context, x: Item, d: Context, more: seq<Item>, k: nat)
    requires AllIn(e, items) && ItemIn(e, x) && ValidContext(e, c) && d == Apply(e, c, x) && k < |c.groups|
    requires Options(e, Open(items), true) == c.opts && Library(Open(items)) == c.avOpts && more == items + [x]
    requires c.groups[k] == GroupsOf(e, items, k)
    ensures AllIn(e, more) && d.groups[k] == GroupsOf(e, more, k)
  {
    GroupsLast(e, items, x, k);
    ApplyCloses(e, c, x, d, k);
  }

  lemma GroupsMore(e: Env, items: seq<Item>, c: Context, x: Item, d: Context, more: seq<Item>)
    requires AllIn(e, items) && ItemIn(e, x) && ValidContext(e, c) && d == Apply(e, c, x) && more == items + [x]
    requires Options(e, Open(items), true) == c.opts && Library(Open(items)) == c.avOpts && AllIn(e, more)
    requires forall k :: 0 <= k < |c.groups| ==> c.groups[k] == GroupsOf(e, items, k)
    ensures forall k :: 0 <= k < |d.groups| ==> d.groups[k] == GroupsOf(e, more, k)
  {
    forall k: nat | k < |d.groups|
      ensures d.groups[k] == GroupsOf(e, more, k)
    {
      GroupMore(e, items, c, x, d, more, k);
    }
  }

  /** since are the items after the last closing one, later those after x as well. */
  lemma OpenMore(e: Env, since: seq<Item>, c: Context, x: Item, d: Context, later: seq<Item>)
    requires AllIn(e, since) && ItemIn(e, x) && ValidContext(e, c) && d == Apply(e, c, x)
    requires c.opts == Options(e, since, true) && c.avOpts == Library(since)
    requires later == if Closes(x) then [] else since + [x]
    ensures AllIn(e, later) && d.opts == Options(e, later, true) && d.avOpts == Library(later)
  {
    ApplyChanges(e, c, x, d);
    if !Closes(x) {
      OptionsLast(e, since, x, true);
      LibraryLast(since, x);
    }
  }

  lemma GlobalsMore(e: Env, items: seq<Item>, c: Context, x: Item, d: Context, more: seq<Item>)
    requires AllIn(e, items) && ItemIn(e, x) && ValidContext(e, c) && d == Apply(e, c, x)
    requires c.globals == Options(e, items, false) && more == items + [x]
    ensures AllIn(e, more) && d.globals == Options(e, more, false)
  {
    OptionsLast(e, items, x, false);
    ApplyChanges(e, c, x, d);
  }

  lemma OpenIn(e: Env, items: seq<Item>)
    requires AllIn(e, items)
    ensures AllIn(e, Open(items))
  {
  }

  lemma MadeOfOneMore(e: Env, items: seq<Item>, c: Context, x: Item, d: Context, more: seq<Item>)
    requires e.seps != [] && AllIn(e, items) && ItemIn(e, x) && MadeOf(e, items, c) && d == Apply(e, c, x)
    requires more == items + [x]
    ensures AllIn(e, more) && MadeOf(e, more, d)
  {
    OpenIn(e, items);
    GlobalsMore(e, items, c, x, d, more);
    GroupsMore(e, items, c, x, d, more);
    OpenLast(items, x);
    OpenMore(e, Open(items), c, x, d, Open(more));
  }

  lemma {:induction false} FoldMakes(e: Env, items: seq<Item>)
    requires e.seps != [] && AllIn(e, items)
    ensures MadeOf(e, items, Fold(e, Empty(e), items))
    decreases |items|
  {
    if items != [] {
      var n := |items| - 1;
      assert items == items[..n] + [items[n]];
      FoldMakes(e, items[..n]);
      FoldAppend(e, Empty(e), items[..n], [items[n]]);
      assert Fold(e, Fold(e, Empty(e), items[..n]), [items[n]]) == Apply(e, Fold(e, Empty(e), items[..n]), items[n]) by {
        assert [items[n]][1..] == [];
      }
      MadeOfOneMore(e, items[..n], Fold(e, Empty(e), items[..n]), items[n], Fold(e, Empty(e), items), items);
    }
  }

  /**
   Whatever was read, with an error at the end or not: the global options in order, one group for each file or separator
   with the options given since the group before it, and what was left open.
   */
  lemma SplitMakes(e: Env, args: seq<string>)
    requires e.seps != []
    ensures AllIn(e, Items(e, args, false).0) && MadeOf(e, Items(e, args, false).0, Split(e, args, false, Empty(e)).context)
  {
    SplitFolds(e, args, false, Empty(e));
    FoldMakes(e, Items(e, args, false).0);
  }
}
