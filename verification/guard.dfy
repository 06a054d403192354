/** The single-instance guard at the top of `main` in src/main.rs: unless the
    run is a one-shot rotation or duplicates are forced, any process whose name
    matches the program's name ends the program quietly before the work loop.
    The process table is a snapshot in the order the process library yields
    it; how that library matches a name against a pattern is not visible, so
    it is a parameter. */
module Guard {
  import opened Wrappers

  /** The name pattern looked up in the process table. */
  const ProgramPattern: string := "wallpaper-pick"

  /** A row of the process table as far as the guard uses it. */
  datatype Process = Process(pid: nat, name: string)

  /** What the guard decides: run the loop, or exit with status 0 naming the
      process found. */
  datatype Decision = Proceed | QuietExit(pid: nat)

  /** The process library's test of a process name against a pattern. */
  type NameMatch = (string, string) -> bool

  /** `p` is reported by the lookup of the program's name. */
  predicate Named(matches: NameMatch, p: Process)
  {
    matches(ProgramPattern, p.name)
  }

  /** Position of the first process of the table that the lookup reports. */
  function FirstNamed(table: seq<Process>, matches: NameMatch): (k: Option<nat>)
    ensures k.Some? ==> k.value < |table| && Named(matches, table[k.value])
    ensures k.Some? ==> forall j :: 0 <= j < k.value ==> !Named(matches, table[j])
    ensures k.None? <==> forall j :: 0 <= j < |table| ==> !Named(matches, table[j])
    decreases |table|
  {
    if |table| == 0 then None
    else if Named(matches, table[0]) then Some(0)
    else
      match FirstNamed(table[1..], matches)
      case None => None
      case Some(k) => Some(k + 1)
  }

  /** The guard: skipped when `rotate` or `forceDuplicate` is set; otherwise
      the first matching process, if any, makes the program exit. No process
      is excluded for being this one or its parent, and age is not looked at. */
  function Check(rotate: bool, forceDuplicate: bool, table: seq<Process>, matches: NameMatch): (d: Decision)
    ensures rotate || forceDuplicate ==> d == Proceed
    ensures !rotate && !forceDuplicate ==>
      (d.QuietExit? <==> exists k :: 0 <= k < |table| && Named(matches, table[k]))
    ensures d.QuietExit? ==>
      exists k :: 0 <= k < |table| && table[k].pid == d.pid && Named(matches, table[k])
                  && forall j :: 0 <= j < k ==> !Named(matches, table[j])
  {
    if rotate || forceDuplicate then Proceed
    else
      match FirstNamed(table, matches)
      case None => Proceed
      case Some(k) => QuietExit(table[k].pid)
  }

  /** The process snapshot includes the running program. Since no entry is
      excluded, a daemon run whose own name the lookup reports always exits
      quietly. */
  lemma SelfMatchExits(me: Process, table: seq<Process>, matches: NameMatch)
    requires me in table && Named(matches, me)
    ensures Check(false, false, table, matches).QuietExit?
  {
  }
}
