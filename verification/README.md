# wallpaper-picker, modelled in Dafny

wallpaper-picker is a small command-line program. It collects the `jpg` and
`png` files of the configured directories and picks one at random. It runs the
configured wallpaper command (by default `feh`) with the configured arguments
followed by the picked path. Then it sleeps and does it again. A one-shot mode
(`rotate`) does a single pick and exits. An instance guard makes the program
exit quietly when the process table holds any process whose name the lookup
of `wallpaper-pick` reports.

The model has three parts, each a pure function of an explicit snapshot of the
environment:

- `Images` (`images.dfy`) models `load_images`. A configured directory is
  `Missing`, `Unreadable` or a `Listing` of items. An `Unreadable` directory is
  one that exists but cannot be listed, for instance a path naming a regular
  file. An item is an entry, or an I/O error reported by the iteration. An
  entry carries its is-file flag, its extension and its path text.
  `Load` is the reference definition of the result. `LoadImages` is the nested
  loop the program runs, and it is proved equal to `Load`.
- `Guard` (`guard.dfy`) models the block at the top of `main`. The process
  table is a sequence of records. The process library's name test is a
  parameter `(pattern, name) -> bool`, applied to the pattern
  `"wallpaper-pick"`. The code excludes no process: not the running program,
  not its parent. It does not look at a process's age either, and neither does
  the model. The snapshot includes the running program itself. So whenever the
  name test accepts the program's own name, the guard exits, and the model
  keeps that behaviour (`Guard.SelfMatchExits`).
- `WorkLoop` (`workloop.dfy`) models the loop of `main`. `Step` performs one
  iteration on a `Round`. A `Snapshot` holds the directories, the random
  draw and the command's exit status. A `Round` holds the collection's result
  in place of the directories, and `Observe` computes it from a snapshot
  through `Load`. The loop state is `Running` or
  `Stopped(reason)`. `Run` folds `Step` over a finite sequence of rounds, and
  `Program` puts the guard in front of it.

The loop keeps no error counter and never retries. The guard excludes no
process and ignores process age. Any load error,
including an I/O error, and any non-zero exit ends the loop. Every break from
the loop makes `main` return `Ok(())`, which `Outcome.Returned` stands for. The
guard's exit has status 0.

## Model

| member | source | states |
|---|---|---|
| Images.LoadImages | src/main.rs:39-62 | The one-pass collection skips missing directories. It returns an I/O error when a directory cannot be listed or its listing fails. Its result equals the reference `Load`. A successful result has type `ImageList`, so it is never empty. |
| Images.LoadNoImagesIff | src/main.rs:58-61 | The collection fails with "no images" exactly when there is no I/O error and no existing directory holds a regular file with extension `jpg` or `png`. |
| Images.LoadOkMember | src/main.rs:41-61 | A path is in a successful collection exactly when some existing directory holds an image entry with that path: a file with extension exactly `jpg` or `png`. |
| Images.FoundMember | src/main.rs:41-53 | Across all directories, a path is collected iff an image entry of an existing directory has it. Missing directories, non-files, entries without an extension and other extensions (`jpeg`, `JPG`) contribute nothing. |
| Images.FoundSound | src/main.rs:41-53 | Every collected path is the path of an image entry of an existing directory. |
| Images.FoundComplete | src/main.rs:41-53 | The path of every image entry of every existing directory is collected. |
| Images.PicturesMember | src/main.rs:43-52 | Within one listing, a path is collected iff some image entry of the listing has it. |
| Images.PicturesMultiplicity | src/main.rs:43-52 | Each image entry of a listing is collected exactly once: a path occurs as often as there are image entries with that path. |
| Images.PicturesAppend | src/main.rs:43-52 | Listing order is kept: the images of a concatenated listing are the first part's images followed by the second's. |
| Images.FoundAppend | src/main.rs:41-57 | Directory order is kept: the images of a concatenated directory list are the first part's images followed by the second's. |
| Images.MissingSkipped | src/main.rs:41-57 | Inserting a missing directory anywhere changes neither the error nor the collected list. Processing continues with the next directory. |
| Guard.FirstNamed | src/main.rs:68-70 | Finds the first process in table order that the name lookup reports, or reports that none matches. |
| Guard.Check | src/main.rs:66-72 | With `rotate` or `force_duplicate` the table is not consulted and the loop runs. Otherwise the program exits quietly iff some process matches. The pid it reports is that of the first matching process. |
| Guard.SelfMatchExits | src/main.rs:66-72 | When the table holds the running program itself and the name test accepts its name, a run without `rotate` or `force_duplicate` always exits quietly: nothing excludes the program's own entry. |
| WorkLoop.PickIndex | src/main.rs:76-80 | The drawn index lies in `[0, len)`, so the wallpaper is an element of the loaded list. Every index in range can be drawn. |
| WorkLoop.Step | src/main.rs:73-101 | A stopped loop is unchanged. A running loop records exactly one iteration. The configured command runs iff images were loaded. Its argv is the configured arguments, in order, plus one loaded path. The loop keeps running iff the load succeeded, the command exited with status zero and `rotate` is unset. On a stop it records the reason. |
| WorkLoop.Run | src/main.rs:73-101 | The loop performs at most one iteration per round. While it is running it has performed one iteration for every round. |
| WorkLoop.RunRecords | src/main.rs:73-101 | Over a sequence of rounds, the k-th recorded iteration is driven by the k-th round. It ran the configured command with the configured arguments plus one loaded path iff that round's collection succeeded. It slept iff that round continues the loop. |
| WorkLoop.RunStops | src/main.rs:87-101 | The loop is still running iff every round succeeded (images loaded, exit status zero) with `rotate` unset. Otherwise it stopped at the first round that did not, for that round's reason: load error, failed command, or rotation. |
| WorkLoop.StoppedIff | src/main.rs:87-102 | The loop has returned exactly when some round ended it: a load error, a non-zero exit, or `rotate`. |
| WorkLoop.StoppedIsFinal | src/main.rs:87-101 | Once the loop has stopped, no later round changes anything. |
| WorkLoop.RotateRunsOnce | src/main.rs:97-99 | With `rotate` the loop stops after exactly one iteration, whatever its outcome, and never sleeps. |
| WorkLoop.Program | src/main.rs:64-103 | The guard runs before any iteration. The program exits quietly iff neither flag is set and a matching process exists. Otherwise the loop runs, and each iteration collects the images afresh from that iteration's directory snapshot. The program returns iff some snapshot ends the loop. With `rotate` it returns after one iteration. |

## Left out

- Real file-system access (`exists`, `read_dir`, `is_file`) is replaced by the directory snapshot. `PathBuf::extension` is replaced by the entry's given extension. The `to_str().unwrap()` panics on non-UTF-8 paths are not modelled.
- The warning printed for a missing directory and the error and stderr echoes are output only, and are left out.
- Command-line parsing with clap and its defaults (`feh`, `--no-fehbg --bg-scale`, 7200 seconds) are left out. `Config` holds the resolved values.
- Spawning the command is left out: the exit status comes from the round. The `expect` panic when the command cannot be started is not modelled.
- The random generator is left out: the round supplies an arbitrary draw, reduced into range. Uniformity is not modelled.
- `thread::sleep` and its duration are left out: an iteration only records whether it slept.
- sysinfo's process enumeration, its iteration order and its name-matching rule are left out. The table is a given snapshot and matching is a parameter.
- The endless loop is observed over a finite sequence of rounds. `StillRunning` means the rounds ran out while the loop was still running.
