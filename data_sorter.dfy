/** The sorting tool of data_sorter.py: every image of every source
    directory under the base path is shown; pressing y copies it into
    BUOY_PRESENT, n into BUOY_NOT_PRESENT, under the name
    "<directory>_<image>", and q ends the session. */
module Sorting {
  import opened Grids

  /** One entry of the base directory listing. */
  datatype Entry = Entry(name: string, isDir: bool)

  /** One image to show: its directory and its file name. */
  datatype Job = Job(directory: string, imageName: string)

  /** A shutil.copyfile call. */
  datatype Copy = Copy(source: string, destination: string)

  /** The copies made and whether the session ended with q. */
  datatype Outcome = Outcome(copies: seq<Copy>, quit: bool)

  /** What the key presses on one shown image amount to. */
  datatype Decision = NoDecision | Decided(choice: char) | QuitRequested

  const PresentFolder: string := "BUOY_PRESENT/"
  const NotPresentFolder: string := "BUOY_NOT_PRESENT/"

  /** Python's name[:4]. */
  function FirstFour(name: string): (r: string)
    ensures |r| == if |name| < 4 then |name| else 4
    ensures r <= name
  {
    if |name| < 4 then name else name[..4]
  }

  /** A name the sorter reads images from: not one of its BUOY* folders. */
  predicate IsSourceName(name: string)
  {
    FirstFour(name) != "BUOY"
  }

  /** The directories the sorter walks through, in listing order. */
  function SourceDirectories(entries: seq<Entry>): (r: seq<string>)
    ensures |r| <= |entries|
    ensures forall d :: d in r <==> exists k | 0 <= k < |entries| ::
      entries[k].isDir && entries[k].name == d && IsSourceName(d)
  {
    if entries == [] then []
    else
      var rest := SourceDirectories(entries[1..]);
      assert forall k | 1 <= k < |entries| :: entries[k] == entries[1..][k - 1];
      if entries[0].isDir && IsSourceName(entries[0].name) then [entries[0].name] + rest else rest
  }

  /** The file an image is read from. */
  function SourcePath(base: string, j: Job): string
  {
    base + j.directory + "/" + j.imageName
  }

  /** Where an image is copied for a given decision, if anywhere. */
  function Destination(base: string, decision: Option<char>, directory: string, imageName: string): (r: Option<string>)
    ensures decision == Some('y') ==> r == Some(base + PresentFolder + directory + "_" + imageName)
    ensures decision == Some('n') ==> r == Some(base + NotPresentFolder + directory + "_" + imageName)
    ensures decision != Some('y') && decision != Some('n') ==> r == None
  {
    match decision
    case Some(c) =>
      if c == 'y' then Some(base + PresentFolder + directory + "_" + imageName)
      else if c == 'n' then Some(base + NotPresentFolder + directory + "_" + imageName)
      else None
    case None => None
  }

  /** Every destination lies in a folder directly under the base path
      whose name starts with BUOY, so the folder is never walked as a
      source directory by a later run. */
  lemma DestinationOutsideSources(base: string, decision: Option<char>, directory: string, imageName: string)
    requires Destination(base, decision, directory, imageName).Some?
    ensures var dst := Destination(base, decision, directory, imageName).value;
      exists folder :: && |folder| > 0 && folder[|folder| - 1] == '/'
                       && base + folder <= dst && !IsSourceName(folder[..|folder| - 1])
  {
    var folder := if decision == Some('y') then PresentFolder else NotPresentFolder;
    var dst := Destination(base, decision, directory, imageName).value;
    assert dst == (base + folder) + (directory + "_" + imageName);
    assert FirstFour(folder[..|folder| - 1]) == "BUOY";
  }

  /** A y answer and an n answer never produce the same file. */
  lemma DecisionsSeparate(base: string, d1: string, i1: string, d2: string, i2: string)
    ensures Destination(base, Some('y'), d1, i1) != Destination(base, Some('n'), d2, i2)
  {
    var a := Destination(base, Some('y'), d1, i1).value;
    var b := Destination(base, Some('n'), d2, i2).value;
    assert a[|base| + 5] == 'P';
    assert b[|base| + 5] == 'N';
  }

  /** Directory names without an underscore keep destinations apart: two
      different images never overwrite each other's copy. */
  lemma {:induction false} DestinationInjective(base: string, c: char, d1: string, i1: string, d2: string, i2: string)
    requires c == 'y' || c == 'n'
    requires '_' !in d1 && '_' !in d2
    requires Destination(base, Some(c), d1, i1) == Destination(base, Some(c), d2, i2)
    ensures d1 == d2 && i1 == i2
  {
    var p := base + (if c == 'y' then PresentFolder else NotPresentFolder);
    var a := p + d1 + "_" + i1;
    var b := p + d2 + "_" + i2;
    assert a == b;
    var tail1 := d1 + "_" + i1;
    var tail2 := d2 + "_" + i2;
    assert a == p + tail1 && b == p + tail2;
    assert tail1 == a[|p|..] == tail2;
    SeparatorAt(d1, i1);
    SeparatorAt(d2, i2);
    if |d1| < |d2| {
      assert false;
    } else if |d2| < |d1| {
      assert false;
    }
    assert d1 == tail1[..|d1|] == tail2[..|d2|] == d2;
    assert i1 == tail1[|d1| + 1..] == tail2[|d2| + 1..] == i2;
  }

  /** The name "<d>_<rest>" spells d and then the underscore. */
  lemma SeparatorAt(d: string, rest: string)
    ensures (d + "_" + rest)[|d|] == '_'
    ensures forall k | 0 <= k < |d| :: (d + "_" + rest)[k] == d[k]
  {
  }

  /** A key that ends the wait for an answer. */
  predicate Decisive(key: string)
  {
    key == "q" || key == "y" || key == "n"
  }

  /** The decision a single decisive key gives. */
  function KeyDecision(key: string): (d: Decision)
    requires Decisive(key)
    ensures d == QuitRequested <==> key == "q"
    ensures key != "q" ==> d == Decided(key[0])
    ensures d.Decided? ==> d.choice == key[0] && |key| == 1
  {
    if key == "q" then QuitRequested else if key == "y" then Decided('y') else Decided('n')
  }

  /** The decision taken while an image is on screen: the first y, n or q
      pressed counts (the figure closes or the program exits on it), and a
      window closed without one leaves the image undecided. */
  function Decide(keys: seq<string>): (d: Decision)
    ensures d.Decided? ==> d.choice == 'y' || d.choice == 'n'
    ensures d == NoDecision <==> forall k | 0 <= k < |keys| :: !Decisive(keys[k])
  {
    if keys == [] then NoDecision
    else if Decisive(keys[0]) then KeyDecision(keys[0])
    else
      var d := Decide(keys[1..]);
      assert forall k | 1 <= k < |keys| :: keys[k] == keys[1..][k - 1];
      d
  }

  /** The decision is that of the first decisive key. */
  lemma {:induction false} DecideFirstKey(keys: seq<string>, i: int)
    requires 0 <= i < |keys| && Decisive(keys[i])
    requires forall k | 0 <= k < i :: !Decisive(keys[k])
    ensures Decide(keys) == KeyDecision(keys[i])
    decreases i
  {
    if i > 0 {
      DecideFirstKey(keys[1..], i - 1);
    }
  }

  /** Appends the copies made so far in front of what the rest produces. */
  function Then(done: seq<Copy>, rest: Outcome): Outcome
  {
    Outcome(done + rest.copies, rest.quit)
  }

  /** The copy made for one decided image (none for an undecided one). */
  function CopiesFor(base: string, j: Job, decision: Option<char>): (r: seq<Copy>)
    ensures |r| <= 1
  {
    match Destination(base, decision, j.directory, j.imageName)
    case Some(dst) => [Copy(SourcePath(base, j), dst)]
    case None => []
  }

  /** The effect of showing the images of jobs in order, with press(j)
      the keys pressed while j is on screen. */
  function Plan(base: string, jobs: seq<Job>, press: Job -> seq<string>): (o: Outcome)
    ensures |o.copies| <= |jobs|
    ensures o.quit <==> exists i | 0 <= i < |jobs| :: Decide(press(jobs[i])) == QuitRequested
    decreases |jobs|
  {
    if jobs == [] then Outcome([], false)
    else
      assert forall i | 1 <= i < |jobs| :: jobs[i] == jobs[1..][i - 1];
      match Decide(press(jobs[0]))
      case QuitRequested => Outcome([], true)
      case NoDecision => Plan(base, jobs[1..], press)
      case Decided(c) => Then(CopiesFor(base, jobs[0], Some(c)), Plan(base, jobs[1..], press))
  }

  /** Every copy is of an image answered with y or n, to the folder of
      that answer. */
  lemma {:induction false} PlanSound(base: string, jobs: seq<Job>, press: Job -> seq<string>)
    ensures forall cp | cp in Plan(base, jobs, press).copies ::
      exists i | 0 <= i < |jobs| ::
        && Decide(press(jobs[i])).Decided?
        && cp.source == SourcePath(base, jobs[i])
        && Some(cp.destination) == Destination(base, Some(Decide(press(jobs[i])).choice), jobs[i].directory, jobs[i].imageName)
    decreases |jobs|
  {
    if jobs != [] {
      PlanSound(base, jobs[1..], press);
      assert forall i | 1 <= i < |jobs| :: jobs[i] == jobs[1..][i - 1];
    }
  }

  /** Unless the session was quit, every image answered with y or n has
      been copied to the folder of that answer. */
  lemma {:induction false} PlanComplete(base: string, jobs: seq<Job>, press: Job -> seq<string>, i: int)
    requires 0 <= i < |jobs|
    requires !Plan(base, jobs, press).quit
    requires Decide(press(jobs[i])).Decided?
    ensures CopiesFor(base, jobs[i], Some(Decide(press(jobs[i])).choice))[0] in Plan(base, jobs, press).copies
    decreases i
  {
    if i > 0 {
      assert jobs[i] == jobs[1..][i - 1];
      PlanComplete(base, jobs[1..], press, i - 1);
    }
  }

  /** The answer a decision leaves in sort_decision after a reset. */
  function Answer(d: Decision): Option<char>
  {
    if d.Decided? then Some(d.choice) else None
  }

  /** One image shown without quitting: its copies come first. */
  lemma PlanUnfold(base: string, jobs: seq<Job>, press: Job -> seq<string>)
    requires jobs != [] && Decide(press(jobs[0])) != QuitRequested
    ensures Plan(base, jobs, press)
      == Then(CopiesFor(base, jobs[0], Answer(Decide(press(jobs[0])))), Plan(base, jobs[1..], press))
  {
  }

  lemma ThenAssociative(a: seq<Copy>, b: seq<Copy>, o: Outcome)
    ensures Then(a, Then(b, o)) == Then(a + b, o)
  {
    assert a + (b + o.copies) == (a + b) + o.copies;
  }

  /** The images of one directory, in listing order. */
  function DirJobs(d: string, names: seq<string>): (r: seq<Job>)
    ensures |r| == |names|
    ensures forall k | 0 <= k < |r| :: r[k] == Job(d, names[k])
  {
    if names == [] then [] else [Job(d, names[0])] + DirJobs(d, names[1..])
  }

  /** The images of all directories, directory by directory. */
  function Jobs(dirs: seq<string>, listing: string -> seq<string>): (r: seq<Job>)
    ensures forall k | 0 <= k < |r| :: r[k].directory in dirs && r[k].imageName in listing(r[k].directory)
    ensures forall d, n | d in dirs && n in listing(d) :: Job(d, n) in r
  {
    if dirs == [] then []
    else
      var first := DirJobs(dirs[0], listing(dirs[0]));
      var rest := Jobs(dirs[1..], listing);
      assert forall k | |first| <= k < |first| + |rest| :: (first + rest)[k] == rest[k - |first|];
      assert forall n | n in listing(dirs[0]) :: Job(dirs[0], n) in first by {
        forall n | n in listing(dirs[0])
          ensures Job(dirs[0], n) in first
        {
          var k :| 0 <= k < |listing(dirs[0])| && listing(dirs[0])[k] == n;
          assert first[k] == Job(dirs[0], n);
        }
      }
      assert forall d | d in dirs && d != dirs[0] :: d in dirs[1..];
      first + rest
  }

  /** The jobs from directory d on: those of d, then those after it. */
  lemma JobsFrom(dirs: seq<string>, d: int, listing: string -> seq<string>)
    requires 0 <= d < |dirs|
    ensures Jobs(dirs[d..], listing) == DirJobs(dirs[d], listing(dirs[d])) + Jobs(dirs[d + 1..], listing)
  {
    assert dirs[d..][1..] == dirs[d + 1..];
  }

  /** Within a directory, the k-th image comes next, then the others. */
  lemma RemainingJobs(d: string, names: seq<string>, k: int)
    requires 0 <= k < |names|
    ensures var rest := DirJobs(d, names)[k..];
      rest != [] && rest[0] == Job(d, names[k]) && rest[1..] == DirJobs(d, names)[k + 1..]
  {
  }

  /** Showing a + b is showing a and, unless a was quit, then b. */
  lemma {:induction false} PlanAppend(base: string, a: seq<Job>, b: seq<Job>, press: Job -> seq<string>)
    ensures Plan(base, a + b, press)
      == if Plan(base, a, press).quit then Plan(base, a, press)
         else Then(Plan(base, a, press).copies, Plan(base, b, press))
    decreases |a|
  {
    if a == [] {
      assert a + b == b;
    } else {
      assert (a + b)[0] == a[0];
      assert (a + b)[1..] == a[1..] + b;
      PlanAppend(base, a[1..], b, press);
      if Decide(press(a[0])).Decided? {
        var made := CopiesFor(base, a[0], Some(Decide(press(a[0])).choice));
        ThenAssociative(made, Plan(base, a[1..], press).copies, Plan(base, b, press));
      }
    }
  }

  class DataSorter {
    const basePath: string
    var sortDecision: Option<char>

    constructor (basePath: string)
      ensures this.basePath == basePath && sortDecision == None
    {
      this.basePath := basePath;
      sortDecision := None;
    }

    /** press_handler: q exits, y and n record the answer and close the
        figure, anything else is ignored. */
    method PressHandler(key: string) returns (quit: bool, closed: bool)
      modifies this
      ensures quit <==> key == "q"
      ensures closed <==> key == "y" || key == "n"
      ensures key == "y" ==> sortDecision == Some('y')
      ensures key == "n" ==> sortDecision == Some('n')
      ensures key != "y" && key != "n" ==> sortDecision == old(sortDecision)
    {
      quit, closed := false, false;
      if key == "q" {
        quit := true;
      } else if key == "y" {
        sortDecision := Some('y');
        closed := true;
      } else if key == "n" {
        sortDecision := Some('n');
        closed := true;
      }
    }

    /** plt.show: the key presses are handed to PressHandler one at a time
        until one of them closes the figure or exits. */
    method ShowAndWait(keys: seq<string>) returns (quit: bool)
      modifies this
      ensures quit <==> Decide(keys) == QuitRequested
      ensures Decide(keys).Decided? ==> sortDecision == Some(Decide(keys).choice)
      ensures Decide(keys) == NoDecision ==> sortDecision == old(sortDecision)
    {
      var i := 0;
      while i < |keys|
        invariant 0 <= i <= |keys|
        invariant forall k | 0 <= k < i :: !Decisive(keys[k])
        invariant sortDecision == old(sortDecision)
      {
        var q, closed := PressHandler(keys[i]);
        if q || closed {
          DecideFirstKey(keys, i);
          return q;
        }
        i := i + 1;
      }
      return false;
    }

    /** The inner loop of iterate_through_directories: the images of one
        directory are shown in order, the answer is reset before each one,
        and the image is copied according to the answer. */
    method SortDirectory(directory: string, names: seq<string>, press: Job -> seq<string>)
      returns (copies: seq<Copy>, quit: bool)
      modifies this
      ensures Outcome(copies, quit) == Plan(basePath, DirJobs(directory, names), press)
    {
      ghost var all := DirJobs(directory, names);
      copies := [];
      var k := 0;
      while k < |names|
        invariant 0 <= k <= |names|
        invariant Plan(basePath, all, press) == Then(copies, Plan(basePath, all[k..], press))
      {
        var job := Job(directory, names[k]);
        RemainingJobs(directory, names, k);
        sortDecision := None;
        var q := ShowAndWait(press(job));
        if q {
          return copies, true;
        }
        var made := CopiesFor(basePath, job, sortDecision);
        PlanUnfold(basePath, all[k..], press);
        ThenAssociative(copies, made, Plan(basePath, all[k + 1..], press));
        copies := copies + made;
        k := k + 1;
      }
      assert all[k..] == [];
      quit := false;
    }

    /** iterate_through_directories: every image of every source
        directory is shown, directory by directory, until q is pressed. */
    method IterateThroughDirectories(entries: seq<Entry>, listing: string -> seq<string>, press: Job -> seq<string>)
      returns (copies: seq<Copy>, quit: bool)
      modifies this
      ensures Outcome(copies, quit) == Plan(basePath, Jobs(SourceDirectories(entries), listing), press)
    {
      var dirs := SourceDirectories(entries);
      ghost var all := Jobs(dirs, listing);
      copies := [];
      var d := 0;
      while d < |dirs|
        invariant 0 <= d <= |dirs|
        invariant Plan(basePath, all, press) == Then(copies, Plan(basePath, Jobs(dirs[d..], listing), press))
      {
        var made, q := SortDirectory(dirs[d], listing(dirs[d]), press);
        JobsFrom(dirs, d, listing);
        PlanAppend(basePath, DirJobs(dirs[d], listing(dirs[d])), Jobs(dirs[d + 1..], listing), press);
        if q {
          return copies + made, true;
        }
        ThenAssociative(copies, made, Plan(basePath, Jobs(dirs[d + 1..], listing), press));
        copies := copies + made;
        d := d + 1;
      }
      assert dirs[d..] == [];
      quit := false;
    }
  }
}
