/**
 * Which files a run processes, in which order. `glob` itself is outside the
 * model (a field of `Env`); the scripts differ in which patterns they ask for
 * and how they combine the answers.
 */
module Discovery {

  import opened Reader

  /** The matches of one pattern inside a folder. */
  function Glob(env: Env, folder: string, pattern: string): seq<string> {
    env.glob(env.joinPath(folder, pattern))
  }

  /** The patterns of the v4.8 application: `.txt` only when text input is enabled. */
  function Patterns(enableTxt: bool): (ps: seq<string>)
    ensures |ps| == if enableTxt then 4 else 3
    ensures ps[..3] == ["*.xlsx", "*.xlsm", "*.csv"]
    ensures enableTxt ==> ps[3] == "*.txt"
  {
    ["*.xlsx", "*.xlsm", "*.csv"] + (if enableTxt then ["*.txt"] else [])
  }

  /** The matches of several patterns, pattern after pattern. */
  function GlobAll(env: Env, folder: string, patterns: seq<string>): seq<string> {
    if patterns == [] then []
    else GlobAll(env, folder, patterns[..|patterns| - 1]) + Glob(env, folder, patterns[|patterns| - 1])
  }

  /** A file is listed exactly when one of the patterns matched it. */
  lemma {:induction false} GlobAllMembers(env: Env, folder: string, patterns: seq<string>, f: string)
    ensures f in GlobAll(env, folder, patterns) <==> exists p :: p in patterns && f in Glob(env, folder, p)
  {
    if patterns != [] {
      var init, last := patterns[..|patterns| - 1], patterns[|patterns| - 1];
      GlobAllMembers(env, folder, init, f);
      assert patterns == init + [last];
      if f in Glob(env, folder, last) {
        assert last in patterns;
      }
      if exists p :: p in patterns && f in Glob(env, folder, p) {
        var p :| p in patterns && f in Glob(env, folder, p);
        if p != last {
          assert p in init;
        }
      }
    }
  }

  /** The loop of the v4.8 application that extends the file list pattern by pattern. */
  method DiscoverFiles(env: Env, folder: string, enableTxt: bool) returns (allFiles: seq<string>)
    ensures allFiles == GlobAll(env, folder, Patterns(enableTxt))
  {
    var patterns := Patterns(enableTxt);
    allFiles := [];
    for k := 0 to |patterns|
      invariant allFiles == GlobAll(env, folder, patterns[..k])
    {
      assert patterns[..k + 1][..k] == patterns[..k];
      allFiles := allFiles + env.glob(env.joinPath(folder, patterns[k]));
    }
    assert patterns[..|patterns|] == patterns;
  }

  /**
   * The v4.8 order: workbooks (`.xlsx`, then `.xlsm`), then `.csv`, then
   * `.txt` when enabled.
   */
  lemma DiscoveryOrder(env: Env, folder: string, enableTxt: bool)
    ensures GlobAll(env, folder, Patterns(enableTxt))
         == Glob(env, folder, "*.xlsx") + Glob(env, folder, "*.xlsm") + Glob(env, folder, "*.csv")
            + (if enableTxt then Glob(env, folder, "*.txt") else [])
  {
    var ps := Patterns(enableTxt);
    var w := ps[..3];
    assert w[..2][..1][..0] == [];
    assert GlobAll(env, folder, w[..1]) == Glob(env, folder, "*.xlsx");
    assert GlobAll(env, folder, w[..2]) == GlobAll(env, folder, w[..1]) + Glob(env, folder, "*.xlsm");
    assert GlobAll(env, folder, w) == GlobAll(env, folder, w[..2]) + Glob(env, folder, "*.csv");
    if enableTxt {
      assert w == ps[..|ps| - 1];
    } else {
      assert ps == w;
    }
  }

  /** Without text input every listed file is a match of one of the three other patterns. */
  lemma NoTextWithoutTxt(env: Env, folder: string, f: string)
    requires f in GlobAll(env, folder, Patterns(false))
    ensures f in Glob(env, folder, "*.xlsx") || f in Glob(env, folder, "*.xlsm") || f in Glob(env, folder, "*.csv")
  {
    GlobAllMembers(env, folder, Patterns(false), f);
  }

  /** The other applications: `.xlsm` files, and `.xlsx` files only when there is no `.xlsm` file. */
  function XlsmElseXlsx(env: Env, folder: string): (files: seq<string>)
    ensures files == Glob(env, folder, "*.xlsm") || files == Glob(env, folder, "*.xlsx")
    ensures files == [] <==> Glob(env, folder, "*.xlsm") == [] && Glob(env, folder, "*.xlsx") == []
    ensures Glob(env, folder, "*.xlsm") != [] ==> files == Glob(env, folder, "*.xlsm")
  {
    var xlsm := Glob(env, folder, "*.xlsm");
    if xlsm == [] then Glob(env, folder, "*.xlsx") else xlsm
  }

}
