/**
 * The command package: at load time every Python file of the package other
 * than the package's own `__init__.py` becomes a command named after the
 * file, and the package reports its version, its number of commands and
 * their sorted names. The file listing is an input.
 */
module Commands {
  import opened Ordering

  const PackageVersion := "3.0"
  const PackageInit := "__init__.py"
  const Extension := ".py"

  /** `filename[:-3]`: the file name without its last three characters (empty when it has fewer). */
  function CommandName(filename: string): (name: string)
    ensures |filename| >= 3 ==> filename == name + filename[|filename| - 3..]
    ensures |filename| < 3 ==> name == []
  {
    if |filename| >= 3 then filename[..|filename| - 3] else []
  }

  /** Naming a command file after its command and back gives the command. */
  lemma CommandNameOfFile(name: string)
    ensures CommandName(name + Extension) == name
  {
    assert (name + Extension)[..|name|] == name;
  }

  /** The command names the package collects from the listed files, in listing order. */
  function CommandNames(files: seq<string>): (names: seq<string>)
    ensures |names| <= |files|
  {
    if files == [] then []
    else if files[|files| - 1] == PackageInit then CommandNames(files[..|files| - 1])
    else CommandNames(files[..|files| - 1]) + [CommandName(files[|files| - 1])]
  }

  /** The module-level loop that fills `__all__`. */
  method Discover(files: seq<string>) returns (all: seq<string>)
    ensures all == CommandNames(files)
  {
    all := [];
    var i := 0;
    while i < |files|
      invariant 0 <= i <= |files|
      invariant all == CommandNames(files[..i])
    {
      assert files[..i + 1][..i] == files[..i];
      if files[i] != PackageInit {
        all := all + [CommandName(files[i])];
      }
      i := i + 1;
    }
    assert files[..|files|] == files;
  }

  /** Every listed file other than `__init__.py` gives exactly its own name, in order. */
  lemma {:induction false} CommandNamesAre(files: seq<string>, i: nat)
    requires i < |files| && files[i] != PackageInit
    ensures exists j :: 0 <= j < |CommandNames(files)| && CommandNames(files)[j] == CommandName(files[i])
    decreases |files|
  {
    var last := |files| - 1;
    if i < last {
      assert files[..last][i] == files[i];
      CommandNamesAre(files[..last], i);
      var j :| 0 <= j < |CommandNames(files[..last])| && CommandNames(files[..last])[j] == CommandName(files[i]);
      assert CommandNames(files)[j] == CommandNames(files[..last])[j];
    } else {
      assert CommandNames(files)[|CommandNames(files)| - 1] == CommandName(files[i]);
    }
  }

  /** Every collected name is the name of a listed file other than `__init__.py`. */
  lemma {:induction false} CommandNamesFromFiles(files: seq<string>, j: nat)
    requires j < |CommandNames(files)|
    ensures exists i :: 0 <= i < |files| && files[i] != PackageInit && CommandNames(files)[j] == CommandName(files[i])
    decreases |files|
  {
    var last := |files| - 1;
    var prefix := files[..last];
    if j < |CommandNames(prefix)| {
      CommandNamesFromFiles(prefix, j);
      var i :| 0 <= i < |prefix| && prefix[i] != PackageInit && CommandNames(prefix)[j] == CommandName(prefix[i]);
      assert prefix[i] == files[i];
    } else {
      assert files[last] != PackageInit && CommandNames(files)[j] == CommandName(files[last]);
    }
  }

  /** With every listed file a `.py` file, the package's own `__init__.py` never becomes a command. */
  lemma {:induction false} InitNeverListed(files: seq<string>)
    requires forall i :: 0 <= i < |files| ==> |files[i]| >= 3 && files[i][|files[i]| - 3..] == Extension
    ensures "__init__" !in CommandNames(files)
    decreases |files|
  {
    if files != [] {
      InitNeverListed(files[..|files| - 1]);
    }
  }

  /** `list_commands()`: the command names in sorted order. */
  function ListCommands(all: seq<string>): (r: seq<string>)
    ensures Sorted(r) && multiset(r) == multiset(all)
  {
    Sort(all)
  }

  /** `COMMANDS_INFO` as `get_command_info()` returns it, without the package path. */
  datatype CommandInfo = CommandInfo(version: string, total: nat, commands: seq<string>)

  function GetCommandInfo(all: seq<string>): (info: CommandInfo)
    ensures info.version == PackageVersion
    ensures info.total == |all| && |info.commands| == |all|
    ensures Sorted(info.commands) && multiset(info.commands) == multiset(all)
  {
    assert |multiset(Sort(all))| == |multiset(all)|;
    CommandInfo(PackageVersion, |all|, Sort(all))
  }

  /** Any sorted arrangement of the commands is the listing, so `list_commands()` and the info agree. */
  lemma ListingIsTheSortedCommands(all: seq<string>, r: seq<string>)
    requires Sorted(r) && multiset(r) == multiset(all)
    ensures r == ListCommands(all) && r == GetCommandInfo(all).commands
  {
    SortedUnique(r, ListCommands(all));
  }
}
