/**
 * The `/help` command: it lists the command files it finds, gives each
 * command its custom description or the default one, sorts them by name and
 * splits them into the main commands (in a fixed order), the other commands
 * (in sorted order) and, for an administrator, the administration commands.
 * The file listing (the `.py` files the glob finds in the `Commandes` directory) and the
 * administrator test's answer are inputs. The reply is modelled as its
 * three sections and its total, not as the formatted text.
 */
module HelpCommand {
  import opened Ordering
  import opened Commands

  const DefaultDescription := "📄 Commande disponible"

  /** `command_descriptions`: the commands with a custom description. */
  const Descriptions: map<string, string> := map[
    "start" := "🌟 Présentation du bot",
    "ai" := "🧠 Chat libre avec IA",
    "story" := "📖 Histoires anime/manga",
    "waifu" := "👸 Génère ta waifu",
    "actionverite" := "🎲 Jeu Action ou Vérité",
    "image" := "🎨 Génère des images AI",
    "memory" := "💾 Voir l'historique",
    "help" := "❓ Cette aide",
    "admin" := "🔐 Panneau admin",
    "broadcast" := "📢 Diffusion admin"
  ]

  const MainCommands: seq<string> := ["start", "ai", "story", "waifu", "actionverite", "image", "memory", "help"]
  const AdminCommands: seq<string> := ["admin", "broadcast"]

  /** `command_descriptions.get(name, default)` */
  function Describe(name: string): string {
    if name in Descriptions then Descriptions[name] else DefaultDescription
  }

  /** `os.path.basename(path)`: what follows the last `/`. */
  function Basename(path: string): (name: string)
    ensures '/' !in name && |name| <= |path|
  {
    if path == [] || path[|path| - 1] == '/' then []
    else Basename(path[..|path| - 1]) + [path[|path| - 1]]
  }

  /** A file inside a directory has its own name as base name. */
  lemma {:induction false} BasenameOfPath(dir: string, name: string)
    requires '/' !in name
    ensures Basename(dir + "/" + name) == name
    decreases |name|
  {
    var path := dir + "/" + name;
    if name != [] {
      var init := name[..|name| - 1];
      assert path[..|path| - 1] == dir + "/" + init;
      assert name[|name| - 1] in name;
      BasenameOfPath(dir, init);
      assert name == init + [name[|name| - 1]];
    }
  }

  /** The command name help derives from a listed path: the base name without its last three characters. */
  function CommandOf(path: string): string {
    CommandName(Basename(path))
  }

  /** The command names of the listed paths, in listing order and with repeats. */
  function Found(paths: seq<string>): (names: seq<string>)
    ensures |names| == |paths|
  {
    if paths == [] then [] else Found(paths[..|paths| - 1]) + [CommandOf(paths[|paths| - 1])]
  }

  /** The `i`-th listed path gives the `i`-th found name. */
  lemma {:induction false} FoundAt(paths: seq<string>, i: nat)
    requires i < |paths|
    ensures Found(paths)[i] == CommandOf(paths[i])
    decreases |paths|
  {
    if i < |paths| - 1 {
      FoundAt(paths[..|paths| - 1], i);
    }
  }

  /** `available_commands`: the descriptions, and the order in which their keys were first inserted. */
  datatype Catalogue = Catalogue(descriptions: map<string, string>, order: seq<string>)

  /** The dictionary the discovery loop builds from the listed paths. */
  function Discovered(paths: seq<string>): (c: Catalogue)
    ensures Distinct(c.order)
    ensures forall n :: n in c.order <==> n in c.descriptions
    ensures forall n :: n in c.descriptions <==> n in Found(paths)
    ensures forall n :: n in c.descriptions ==> c.descriptions[n] == Describe(n)
  {
    if paths == [] then Catalogue(map[], [])
    else
      var prefix := paths[..|paths| - 1];
      var prev := Discovered(prefix);
      Record(prev, CommandOf(paths[|paths| - 1]))
  }

  /** One step of the loop: `available_commands[name] = ...`, a new key going last. */
  function Record(c: Catalogue, name: string): (r: Catalogue)
    requires Distinct(c.order)
    requires forall n :: n in c.order <==> n in c.descriptions
    requires forall n :: n in c.descriptions ==> c.descriptions[n] == Describe(n)
    ensures Distinct(r.order)
    ensures forall n :: n in r.order <==> n in r.descriptions
    ensures forall n :: n in r.descriptions <==> n in c.descriptions || n == name
    ensures forall n :: n in r.descriptions ==> r.descriptions[n] == Describe(n)
  {
    if name in c.descriptions then Catalogue(c.descriptions[name := Describe(name)], c.order)
    else Catalogue(c.descriptions[name := Describe(name)], c.order + [name])
  }

  lemma DiscoveredStep(paths: seq<string>, i: nat)
    requires i < |paths|
    ensures Discovered(paths[..i + 1]) == Record(Discovered(paths[..i]), CommandOf(paths[i]))
  {
    assert paths[..i + 1][..i] == paths[..i];
  }

  /** Keys are recorded in the order of their first occurrence among the found names. */
  lemma {:induction false} DiscoveredInFirstOrder(paths: seq<string>, i: nat, j: nat)
    ensures i < j < |Discovered(paths).order| ==>
      Rank(Found(paths), Discovered(paths).order[i]) < Rank(Found(paths), Discovered(paths).order[j])
    decreases |paths|
  {
    if i < j < |Discovered(paths).order| {
      var prefix := paths[..|paths| - 1];
      var prev := Discovered(prefix);
      var c := Discovered(paths);
      var found := Found(paths);
      assert found[..|found| - 1] == Found(prefix);
      assert c.order[i] == prev.order[i] && prev.order[i] in Found(prefix);
      RankInPrefix(found, c.order[i]);
      if j < |prev.order| {
        assert c.order[j] == prev.order[j] && prev.order[j] in Found(prefix);
        RankInPrefix(found, c.order[j]);
        DiscoveredInFirstOrder(prefix, i, j);
      } else {
        var name := CommandOf(paths[|paths| - 1]);
        assert c.order[j] == name && name !in Found(prefix);
        assert found[|found| - 1] == name;
      }
    }
  }

  /** The discovery loop over the listed paths. */
  method Collect(paths: seq<string>) returns (c: Catalogue)
    ensures c == Discovered(paths)
  {
    var available: map<string, string> := map[];
    var order: seq<string> := [];
    var i := 0;
    while i < |paths|
      invariant 0 <= i <= |paths|
      invariant Catalogue(available, order) == Discovered(paths[..i])
    {
      DiscoveredStep(paths, i);
      var name := CommandOf(paths[i]);
      if name !in available {
        order := order + [name];
      }
      available := available[name := Describe(name)];
      i := i + 1;
    }
    assert paths[..|paths|] == paths;
    c := Catalogue(available, order);
  }

  /** One line of a section: a command and its description. */
  datatype Entry = Entry(name: string, description: string)

  function Names(lines: seq<Entry>): (names: seq<string>)
    ensures |names| == |lines|
    ensures forall k :: 0 <= k < |lines| ==> names[k] == lines[k].name
  {
    seq(|lines|, k requires 0 <= k < |lines| => lines[k].name)
  }

  /** The lines for those of `cmds` that are in the dictionary, in the order of `cmds`. */
  function Present(cmds: seq<string>, available: map<string, string>): (lines: seq<Entry>)
    ensures forall k :: 0 <= k < |lines| ==>
      lines[k].name in cmds && lines[k].name in available && lines[k].description == available[lines[k].name]
    ensures forall n :: n in Names(lines) <==> n in cmds && n in available
  {
    if cmds == [] then []
    else
      var prefix := cmds[..|cmds| - 1];
      var last := cmds[|cmds| - 1];
      assert cmds == prefix + [last];
      var prev := Present(prefix, available);
      if last in available then
        var lines := prev + [Entry(last, available[last])];
        assert Names(lines) == Names(prev) + [last];
        lines
      else prev
  }

  /** The names of `names` that are not in `excluded`, in their order. */
  function Outside(names: seq<string>, excluded: seq<string>): (r: seq<string>)
    ensures forall n :: n in r <==> n in names && n !in excluded
  {
    if names == [] then []
    else
      var prefix := names[..|names| - 1];
      var last := names[|names| - 1];
      assert names == prefix + [last];
      if last in excluded then Outside(prefix, excluded) else Outside(prefix, excluded) + [last]
  }

  /** The help reply: its three sections and the total number of commands. */
  datatype HelpReply = HelpReply(main: seq<Entry>, other: seq<Entry>, admin: seq<Entry>, total: nat)

  /** The reply built from the discovered dictionary. */
  function Help(c: Catalogue, isAdmin: bool): HelpReply {
    var sorted := Sort(c.order);
    HelpReply(
      Present(MainCommands, c.descriptions),
      Present(Outside(sorted, MainCommands), c.descriptions),
      if isAdmin then Present(AdminCommands, c.descriptions) else [],
      |sorted|)
  }

  /** The loop that writes the main section. */
  method MainSection(available: map<string, string>) returns (lines: seq<Entry>)
    ensures lines == Present(MainCommands, available)
  {
    lines := [];
    var i := 0;
    while i < |MainCommands|
      invariant 0 <= i <= |MainCommands|
      invariant lines == Present(MainCommands[..i], available)
    {
      assert MainCommands[..i + 1][..i] == MainCommands[..i];
      var cmd := MainCommands[i];
      if cmd in available {
        lines := lines + [Entry(cmd, available[cmd])];
      }
      i := i + 1;
    }
    assert MainCommands[..|MainCommands|] == MainCommands;
  }

  /** `execute(sender_id, args)`: `paths` is the glob result, `isAdmin` the administrator test's answer. */
  method Execute(paths: seq<string>, isAdmin: bool) returns (reply: HelpReply)
    ensures reply == Help(Discovered(paths), isAdmin)
  {
    var c := Collect(paths);
    var sorted := Sort(c.order);
    var main := MainSection(c.descriptions);
    var other := Present(Outside(sorted, MainCommands), c.descriptions);
    var admin: seq<Entry> := [];
    if isAdmin {
      admin := Present(AdminCommands, c.descriptions);
    }
    reply := HelpReply(main, other, admin, |sorted|);
  }

  /** The position of the first occurrence of `name` in `cmds` (`|cmds|` when absent). */
  function Rank(cmds: seq<string>, name: string): (i: nat)
    ensures i <= |cmds| && (i < |cmds| <==> name in cmds)
    ensures i < |cmds| ==> cmds[i] == name
  {
    if cmds == [] then 0
    else
      var prefix := cmds[..|cmds| - 1];
      assert cmds == prefix + [cmds[|cmds| - 1]];
      if name in prefix then Rank(prefix, name)
      else if cmds[|cmds| - 1] == name then |cmds| - 1
      else |cmds|
  }

  lemma RankInPrefix(cmds: seq<string>, name: string)
    requires cmds != [] && name in cmds[..|cmds| - 1]
    ensures Rank(cmds, name) == Rank(cmds[..|cmds| - 1], name) < |cmds| - 1
  {
  }

  lemma RankOfLast(cmds: seq<string>)
    requires cmds != [] && Distinct(cmds)
    ensures Rank(cmds, cmds[|cmds| - 1]) == |cmds| - 1
  {
    assert cmds[|cmds| - 1] !in cmds[..|cmds| - 1];
  }

  /** For commands without repeats, the lines come in the commands' order, so none repeats. */
  lemma {:induction false} PresentInOrder(cmds: seq<string>, available: map<string, string>, k: nat, l: nat)
    requires Distinct(cmds) && k < l < |Present(cmds, available)|
    ensures Rank(cmds, Present(cmds, available)[k].name) < Rank(cmds, Present(cmds, available)[l].name)
    decreases |cmds|
  {
    var prefix := cmds[..|cmds| - 1];
    var last := cmds[|cmds| - 1];
    var prev := Present(prefix, available);
    var lines := Present(cmds, available);
    if last in available {
      assert lines == prev + [Entry(last, available[last])];
    }
    assert lines[k] == prev[k] && prev[k].name in prefix;
    RankInPrefix(cmds, prev[k].name);
    if l < |prev| {
      assert lines[l] == prev[l] && prev[l].name in prefix;
      RankInPrefix(cmds, prev[l].name);
      PresentInOrder(prefix, available, k, l);
    } else {
      assert lines[l].name == last;
      RankOfLast(cmds);
    }
  }

  /** Filtering a list without repeats in sorted order keeps it in sorted order without repeats. */
  lemma {:induction false} OutsideSorted(names: seq<string>, excluded: seq<string>)
    requires StrictlySorted(names)
    ensures StrictlySorted(Outside(names, excluded))
    decreases |names|
  {
    if names != [] {
      var prefix := names[..|names| - 1];
      var last := names[|names| - 1];
      OutsideSorted(prefix, excluded);
      var prev := Outside(prefix, excluded);
      forall k | 0 <= k < |prev|
        ensures Below(prev[k], last) && prev[k] != last
      {
        assert prev[k] in prefix;
        var i :| 0 <= i < |prefix| && prefix[i] == prev[k];
        assert names[i] == prev[k];
      }
    }
  }

  lemma MainCommandsDistinct()
    ensures Distinct(MainCommands) && Distinct(AdminCommands)
  {
  }

  /** A custom description is never the default one, so a command shows the default exactly when it has no custom one. */
  lemma DefaultOnlyWithoutCustom(name: string)
    ensures Describe(name) == DefaultDescription <==> name !in Descriptions
  {
  }

  /** When every command is in the dictionary, its lines name exactly those commands, in order. */
  lemma {:induction false} PresentAll(cmds: seq<string>, available: map<string, string>)
    requires forall n :: n in cmds ==> n in available
    ensures Names(Present(cmds, available)) == cmds
    decreases |cmds|
  {
    if cmds != [] {
      var prefix := cmds[..|cmds| - 1];
      PresentAll(prefix, available);
      var prev := Present(prefix, available);
      assert Present(cmds, available) == prev + [Entry(cmds[|cmds| - 1], available[cmds[|cmds| - 1]])];
      assert Names(prev + [Entry(cmds[|cmds| - 1], available[cmds[|cmds| - 1]])]) == Names(prev) + [cmds[|cmds| - 1]];
    }
  }

  /** Distinct strings strictly increase in rank along any listing that follows the commands' order. */
  lemma InOrderDistinct(cmds: seq<string>, lines: seq<Entry>)
    requires forall k, l :: 0 <= k < l < |lines| ==> Rank(cmds, lines[k].name) < Rank(cmds, lines[l].name)
    ensures Distinct(Names(lines))
  {
  }

  /**
   * The main section lists exactly the discovered main commands, each once,
   * with its description, in the fixed order of the main commands.
   */
  lemma MainSectionIsFixedOrder(paths: seq<string>, isAdmin: bool)
    ensures var r := Help(Discovered(paths), isAdmin);
      && (forall n :: n in Names(r.main) <==> n in Found(paths) && n in MainCommands)
      && (forall k :: 0 <= k < |r.main| ==> r.main[k].description == Describe(r.main[k].name))
      && (forall k, l :: 0 <= k < l < |r.main| ==> Rank(MainCommands, r.main[k].name) < Rank(MainCommands, r.main[l].name))
      && Distinct(Names(r.main))
  {
    var c := Discovered(paths);
    var main := Present(MainCommands, c.descriptions);
    MainCommandsDistinct();
    forall k, l | 0 <= k < l < |main|
      ensures Rank(MainCommands, main[k].name) < Rank(MainCommands, main[l].name)
    {
      PresentInOrder(MainCommands, c.descriptions, k, l);
    }
    InOrderDistinct(MainCommands, main);
  }

  /**
   * The other section lists exactly the discovered commands that are not
   * main commands (the administration commands among them, whoever asks),
   * each once, with its description, in sorted order.
   */
  lemma OtherSectionIsSorted(paths: seq<string>, isAdmin: bool)
    ensures var r := Help(Discovered(paths), isAdmin);
      && (forall n :: n in Names(r.other) <==> n in Found(paths) && n !in MainCommands)
      && (forall k :: 0 <= k < |r.other| ==> r.other[k].description == Describe(r.other[k].name))
      && StrictlySorted(Names(r.other))
  {
    var c := Discovered(paths);
    var sorted := Sort(c.order);
    var others := Outside(sorted, MainCommands);
    forall n | n in sorted ensures n in c.order {
      assert multiset(sorted)[n] > 0;
    }
    forall n | n in c.order ensures n in sorted {
      assert multiset(c.order)[n] > 0;
    }
    PresentAll(others, c.descriptions);
    SortDistinct(c.order);
    OutsideSorted(sorted, MainCommands);
  }

  /** The lines are empty exactly when none of the commands is in the dictionary. */
  lemma PresentEmpty(cmds: seq<string>, available: map<string, string>)
    ensures Present(cmds, available) == [] <==> forall n :: n in cmds ==> n !in available
  {
    var lines := Present(cmds, available);
    if lines != [] {
      assert lines[0].name in Names(lines);
    }
  }

  /**
   * The administration section is empty for anyone but an administrator; for
   * an administrator it lists the discovered administration commands, and it
   * appears exactly when at least one of them was discovered.
   */
  lemma AdminSectionOnlyForAdmins(paths: seq<string>, isAdmin: bool)
    ensures var r := Help(Discovered(paths), isAdmin);
      && (!isAdmin ==> r.admin == [])
      && (isAdmin ==> forall n :: n in Names(r.admin) <==> n in Found(paths) && n in AdminCommands)
      && (r.admin != [] <==> isAdmin && ("admin" in Found(paths) || "broadcast" in Found(paths)))
  {
    var c := Discovered(paths);
    assert Help(c, isAdmin).admin == if isAdmin then Present(AdminCommands, c.descriptions) else [];
    AdminLines(c.descriptions);
  }

  lemma AdminLines(available: map<string, string>)
    ensures Present(AdminCommands, available) != [] <==> "admin" in available || "broadcast" in available
  {
    PresentEmpty(AdminCommands, available);
    assert AdminCommands == ["admin", "broadcast"];
  }

  /** A list without repeats has as many elements as its set of elements. */
  lemma {:induction false} DistinctCardinality(s: seq<string>)
    requires Distinct(s)
    ensures |set x | x in s| == |s|
    decreases |s|
  {
    if s != [] {
      var prefix := s[..|s| - 1];
      var last := s[|s| - 1];
      DistinctCardinality(prefix);
      assert last !in prefix;
      assert (set x | x in s) == (set x | x in prefix) + {last};
    }
  }

  /** The total is the number of different command names discovered. */
  lemma TotalCountsCommands(paths: seq<string>, isAdmin: bool)
    ensures Help(Discovered(paths), isAdmin).total == |set n | n in Found(paths)|
  {
    var c := Discovered(paths);
    assert |Sort(c.order)| == |multiset(Sort(c.order))| == |multiset(c.order)| == |c.order|;
    assert (set n | n in Found(paths)) == (set n | n in c.order);
    DistinctCardinality(c.order);
  }

  /**
   * Unlike the package loader, help does not skip the package's own
   * `__init__.py`: when the glob finds it, `__init__` is listed among the
   * other commands.
   */
  lemma HelpListsInit(paths: seq<string>, i: nat, isAdmin: bool)
    requires i < |paths| && paths[i] == "Commandes/__init__.py"
    ensures "__init__" in Names(Help(Discovered(paths), isAdmin).other)
  {
    InitFileName();
    FoundAt(paths, i);
    OtherSectionIsSorted(paths, isAdmin);
  }

  /** The package's own file gives the command name `__init__`, which is not a main command. */
  lemma InitFileName()
    ensures CommandOf("Commandes/__init__.py") == "__init__" && "__init__" !in MainCommands
  {
    assert "Commandes/__init__.py" == "Commandes" + "/" + "__init__.py";
    BasenameOfPath("Commandes", "__init__.py");
    assert "__init__.py" == "__init__" + Extension;
    CommandNameOfFile("__init__");
  }
}
