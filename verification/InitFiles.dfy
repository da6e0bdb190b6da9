/** The file phase of pki.Init (internal/pki/pki.go) on a disk where calls fail and others create files. */
module InitFiles {
  import opened Profiles

  type Content = Body

  /**
   A directory tree. `others` are the files this run did not create, and what they hold; `made` are
   the files this run created and has not removed.
   */
  class Disk {
    var files: map<string, Content>
    ghost var others: map<string, Content>
    ghost var made: map<string, Content>

    constructor (files: map<string, Content>)
      ensures Valid() && this.files == files && others == files && made == map[]
    {
      this.files, others, made := files, files, map[];
    }

    ghost predicate Valid()
      reads this
    {
      others.Keys !! made.Keys && files == others + made
    }

    /** Others create files, at paths that are free. */
    method Appear(created: map<string, Content>)
      requires Valid()
      modifies this`files, this`others
      ensures Valid() && others == Joined(old(others), made.Keys, created)
      ensures files == created + old(files)
    {
      others := Joined(others, made.Keys, created);
      files := created + files;
    }

    /** os.OpenFile with O_CREATE and O_EXCL. */
    method OpenNew(path: string, fails: bool) returns (ok: bool)
      requires Valid()
      modifies this`files, this`made
      ensures Valid() && ok == (!fails && path !in old(files))
      ensures made == if ok then old(made)[path := []] else old(made)
    {
      ok := !fails && path !in files;
      if ok {
        files := files[path := []];
        made := made[path := []];
      }
    }

    /** Writes to a file this run has open. */
    method Write(path: string, data: Content)
      requires Valid() && path in made
      modifies this`files, this`made
      ensures Valid() && made == old(made)[path := data]
    {
      files := files[path := data];
      made := made[path := data];
    }

    /** os.Remove, which takes whatever is at the path. */
    method Remove(path: string, fails: bool)
      modifies this`files, this`made
      ensures files == if fails then old(files) else old(files) - {path}
      ensures made == if fails then old(made) else old(made) - {path}
      ensures old(Valid()) && path !in others ==> Valid()
    {
      if !fails {
        assert Valid() && path !in others ==> files - {path} == others + (made - {path});
        files := files - {path};
        made := made - {path};
      }
    }
  }

  /** What others hold once they have created more files, at paths that neither they nor this run had taken. */
  function Joined(others: map<string, Content>, mine: set<string>, created: map<string, Content>)
    : map<string, Content>
  {
    others + (created - (others.Keys + mine))
  }

  ghost predicate Grown(before: map<string, Content>, after: map<string, Content>) {
    forall p :: p in before ==> p in after && after[p] == before[p]
  }

  /** What happens around one file: who else creates files, and which calls fail. */
  datatype Weather = Weather(
    lookFails: bool,
    before: map<string, Content>,
    openFails: bool,
    cutAt: nat,
    writeFails: bool,
    during: map<string, Content>,
    closeFails: bool,
    removeFails: bool,
    cleanupFails: bool)

  datatype NewFile = NewFile(path: string, data: Content)

  /** How far the run has come: the files of others, and whether all went well. */
  datatype Stage = Stage(others: map<string, Content>, ok: bool)

  predicate Opens(others: map<string, Content>, mine: set<string>, path: string, w: Weather) {
    !w.openFails && path !in Joined(others, mine, w.before)
  }

  /** One new file: others create files before it is opened and, if that works, while it is written. */
  function Creating(others: map<string, Content>, mine: set<string>, path: string, w: Weather): Stage {
    var before := Joined(others, mine, w.before);
    if !Opens(others, mine, path, w) then Stage(before, false)
    else Stage(Joined(before, mine + {path}, w.during), !w.writeFails && !w.closeFails)
  }

  /** One new file after the other, up to the first that fails. */
  function CreatingAll(others: map<string, Content>, files: seq<NewFile>, weather: seq<Weather>): Stage
    requires |files| <= |weather|
  {
    if files == [] then Stage(others, true)
    else
      var front := files[..|files|-1];
      var p := CreatingAll(others, front, weather);
      if !p.ok then p
      else Creating(p.others, PathSet(front), files[|files|-1].path, weather[|files|-1])
  }

  lemma {:induction false} CreatingStops(
      others: map<string, Content>, files: seq<NewFile>, weather: seq<Weather>, k: nat)
    requires k <= |files| <= |weather| && !CreatingAll(others, files[..k], weather).ok
    ensures CreatingAll(others, files, weather) == CreatingAll(others, files[..k], weather)
  {
    if k == |files| {
      assert files[..k] == files;
    } else {
      assert files[..|files|-1][..k] == files[..k];
      CreatingStops(others, files[..|files|-1], weather, k);
    }
  }

  lemma CreatingMore(others: map<string, Content>, files: seq<NewFile>, weather: seq<Weather>, k: nat)
    requires k < |files| <= |weather| && CreatingAll(others, files[..k], weather).ok
    ensures CreatingAll(others, files[..k+1], weather)
            == Creating(CreatingAll(others, files[..k], weather).others, PathSet(files[..k]), files[k].path, weather[k])
  {
    assert files[..k+1][..k] == files[..k];
  }

  /** Files of others are never changed or removed. */
  lemma {:induction false} OthersStay(
      others: map<string, Content>, files: seq<NewFile>, weather: seq<Weather>, k: nat)
    requires k <= |files| <= |weather|
    ensures Grown(CreatingAll(others, files[..k], weather).others, CreatingAll(others, files, weather).others)
  {
    if k == |files| {
      assert files[..k] == files;
    } else {
      assert files[..|files|-1][..k] == files[..k];
      OthersStay(others, files[..|files|-1], weather, k);
    }
  }

  /**
   A file that others create, at a free path, before or while new file `k` is written is theirs at the
   end, with what it held when it appeared.
   */
  lemma ArrivalsStay(
      others: map<string, Content>, files: seq<NewFile>, weather: seq<Weather>, k: nat, p: string)
    requires k < |files| <= |weather| && CreatingAll(others, files[..k], weather).ok
    requires p !in CreatingAll(others, files[..k], weather).others && p !in PathSet(files[..k])
    ensures var w, end := weather[k], CreatingAll(others, files, weather).others;
            && (p in w.before ==> p in end && end[p] == w.before[p])
            && (&& Opens(CreatingAll(others, files[..k], weather).others, PathSet(files[..k]), files[k].path, w)
                && p !in w.before && p in w.during && p != files[k].path
                ==> p in end && end[p] == w.during[p])
  {
    assert files[..k+1][..k] == files[..k];
    OthersStay(others, files, weather, k + 1);
  }

  /** No call fails for new file `k`, and nobody has taken its path before it is opened. */
  predicate GoesWell(others: map<string, Content>, files: seq<NewFile>, weather: seq<Weather>, k: nat)
    requires k < |files| <= |weather|
  {
    && !weather[k].openFails && !weather[k].writeFails && !weather[k].closeFails
    && files[k].path !in CreatingAll(others, files[..k], weather).others && files[k].path !in weather[k].before
  }

  /** The run succeeds exactly when all goes well for every file. */
  lemma {:induction false} SucceedsExactly(others: map<string, Content>, files: seq<NewFile>, weather: seq<Weather>)
    requires |files| <= |weather| && DistinctPaths(files)
    ensures CreatingAll(others, files, weather).ok
            <==> forall k :: 0 <= k < |files| ==> GoesWell(others, files, weather, k)
  {
    if files != [] {
      var n := |files| - 1;
      SucceedsExactly(others, files[..n], weather);
      SameBefore(others, files, weather, n);
      LastSucceeds(others, files, weather);
    }
  }

  lemma SameBefore(others: map<string, Content>, files: seq<NewFile>, weather: seq<Weather>, n: nat)
    requires n <= |files| <= |weather|
    ensures forall k :: 0 <= k < n ==> GoesWell(others, files[..n], weather, k) == GoesWell(others, files, weather, k)
  {
    forall k | 0 <= k < n ensures GoesWell(others, files[..n], weather, k) == GoesWell(others, files, weather, k) {
      assert files[..n][..k] == files[..k];
    }
  }

  lemma LastSucceeds(others: map<string, Content>, files: seq<NewFile>, weather: seq<Weather>)
    requires files != [] && |files| <= |weather| && DistinctPaths(files)
    ensures var n := |files| - 1;
            CreatingAll(others, files, weather).ok
            <==> CreatingAll(others, files[..n], weather).ok && GoesWell(others, files, weather, n)
  {
    var n := |files| - 1;
    assert files[n].path !in PathSet(files[..n]) by {
      assert forall j :: 0 <= j < n ==> Paths(files[..n])[j] == files[j].path;
    }
  }

  /** A path that is nobody's stays so. */
  lemma {:induction false} StaysFree(
      others: map<string, Content>, files: seq<NewFile>, weather: seq<Weather>, path: string)
    requires |files| <= |weather|
    requires path !in others && forall w :: w in weather ==> path !in w.before && path !in w.during
    ensures path !in CreatingAll(others, files, weather).others
  {
    if files != [] {
      StaysFree(others, files[..|files|-1], weather, path);
      assert weather[|files|-1] in weather;
    }
  }

  /** So with no failing call, and no file of others at any of the paths at any time, all files are made. */
  lemma NothingInTheWay(others: map<string, Content>, files: seq<NewFile>, weather: seq<Weather>)
    requires |files| <= |weather| && DistinctPaths(files)
    requires forall w :: w in weather ==> !w.openFails && !w.writeFails && !w.closeFails
    requires forall f, w :: f in files && w in weather ==>
               f.path !in others && f.path !in w.before && f.path !in w.during
    ensures CreatingAll(others, files, weather).ok
  {
    forall k | 0 <= k < |files| ensures GoesWell(others, files, weather, k) {
      assert weather[k] in weather && files[k] in files;
      StaysFree(others, files[..k], weather, files[k].path);
    }
    SucceedsExactly(others, files, weather);
  }

  /** writeNew: all of the file, or (if it can be removed) none of it. */
  method WriteNew(disk: Disk, file: NewFile, w: Weather) returns (ok: bool)
    requires disk.Valid() && file.path !in disk.made
    modifies disk
    ensures disk.Valid()
    ensures Stage(disk.others, ok) == Creating(old(disk.others), old(disk.made).Keys, file.path, w)
    ensures ok ==> disk.made == old(disk.made)[file.path := file.data]
    ensures !ok && !w.removeFails ==> disk.made == old(disk.made)
    ensures !ok ==> disk.made - {file.path} == old(disk.made)
  {
    disk.Appear(w.before);
    NewPath(disk.made, file.path, file.data);
    var isNew := disk.OpenNew(file.path, w.openFails);
    if !isNew {
      return false;
    }
    ok := FillNew(disk, file, w);
  }

  /** A map with one more key, before and after that key is given its value. */
  lemma NewPath(made: map<string, Content>, path: string, data: Content)
    requires path !in made
    ensures made[path := []].Keys == made.Keys + {path}
    ensures made[path := []][path := data] == made[path := data]
    ensures made[path := []] - {path} == made && made - {path} == made
  {
  }

  /** Fills and closes the file just created, or removes it. */
  method FillNew(disk: Disk, file: NewFile, w: Weather) returns (ok: bool)
    requires disk.Valid() && file.path in disk.made
    modifies disk
    ensures disk.Valid() && disk.others == Joined(old(disk.others), old(disk.made).Keys, w.during)
    ensures ok == (!w.writeFails && !w.closeFails)
    ensures ok ==> disk.made == old(disk.made)[file.path := file.data]
    ensures !ok && !w.removeFails ==> disk.made == old(disk.made) - {file.path}
    ensures !ok ==> disk.made - {file.path} == old(disk.made) - {file.path}
  {
    var data := if w.writeFails && w.cutAt <= |file.data| then file.data[..w.cutAt] else file.data;
    ghost var made := disk.made;
    assert made[file.path := data] - {file.path} == made - {file.path};
    disk.Write(file.path, data);
    assert disk.made.Keys == made.Keys;
    disk.Appear(w.during);
    if w.writeFails || w.closeFails {
      disk.Remove(file.path, w.removeFails);
      return false;
    }
    return true;
  }

  /** The new files with their data. */
  function Written(files: seq<NewFile>): map<string, Content> {
    if files == [] then map[]
    else Written(files[..|files|-1])[files[|files|-1].path := files[|files|-1].data]
  }

  function Paths(files: seq<NewFile>): seq<string> {
    seq(|files|, i requires 0 <= i < |files| => files[i].path)
  }

  function PathSet(files: seq<NewFile>): set<string> {
    set p | p in Paths(files)
  }

  ghost predicate DistinctPaths(files: seq<NewFile>) {
    forall i, j :: 0 <= i < j < |files| ==> files[i].path != files[j].path
  }

  lemma {:induction false} WrittenIs(files: seq<NewFile>)
    requires DistinctPaths(files)
    ensures Written(files).Keys == PathSet(files)
    ensures forall i :: 0 <= i < |files| ==>
              files[i].path in Written(files) && Written(files)[files[i].path] == files[i].data
  {
    if files != [] {
      var front, last := files[..|files|-1], files[|files|-1];
      WrittenIs(front);
      assert Paths(files) == Paths(front) + [last.path];
      assert forall i :: 0 <= i < |front| ==> front[i] == files[i];
    }
  }

  /** Every removal succeeds. */
  predicate RemovalsSucceed(weather: seq<Weather>) {
    forall w :: w in weather ==> !w.removeFails && !w.cleanupFails
  }

  /**
   The file phase is all or nothing: it ends with all the new files and their data or, if removals
   succeed, with exactly the files of others. Which those are, and whether the run succeeds, is given
   exactly; OthersStay and ArrivalsStay say that none is changed or removed. A file that is already
   there, or a path that cannot be inspected, stops the run before it writes anything.
   */
  method WriteAll(disk: Disk, files: seq<NewFile>, weather: seq<Weather>) returns (ok: bool)
    requires disk.Valid() && disk.made == map[] && |weather| == |files| && DistinctPaths(files)
    modifies disk
    ensures disk.Valid()
    ensures ok ==> disk.files == disk.others + Written(files)
    ensures !ok && RemovalsSucceed(weather) ==> disk.files == disk.others
    ensures if exists i :: 0 <= i < |files| && (files[i].path in old(disk.files) || weather[i].lookFails) then
              !ok && disk.files == old(disk.files) && disk.others == old(disk.others)
            else
              Stage(disk.others, ok) == CreatingAll(old(disk.others), files, weather)
  {
    for i := 0 to |files|
      invariant forall j :: 0 <= j < i ==> files[j].path !in disk.files && !weather[j].lookFails
    {
      if files[i].path in disk.files || weather[i].lookFails {
        return false;
      }
    }
    ok := CreateAll(disk, files, weather);
  }

  /** The loop that creates the files, and takes back what it created when one of them fails. */
  method CreateAll(disk: Disk, files: seq<NewFile>, weather: seq<Weather>) returns (ok: bool)
    requires disk.Valid() && disk.made == map[] && |weather| == |files| && DistinctPaths(files)
    modifies disk
    ensures disk.Valid()
    ensures Stage(disk.others, ok) == CreatingAll(old(disk.others), files, weather)
    ensures ok ==> disk.made == Written(files)
    ensures !ok && RemovalsSucceed(weather) ==> disk.made == map[]
  {
    var created: seq<string> := [];
    for i := 0 to |files|
      invariant disk.Valid()
      invariant Stage(disk.others, true) == CreatingAll(old(disk.others), files[..i], weather)
      invariant created == Paths(files[..i])
      invariant disk.made == Written(files[..i])
    {
      OneMoreFile(files, i);
      CreatingMore(old(disk.others), files, weather, i);
      var written := WriteNew(disk, files[i], weather[i]);
      if !written {
        CreatingStops(old(disk.others), files, weather, i + 1);
        TakeBack(disk, files[i].path, created, weather, weather[i]);
        return false;
      }
      created := created + [files[i].path];
    }
    assert files[..|files|] == files;
    return true;
  }

  /** The path of the next file is new, and what is written then. */
  lemma OneMoreFile(files: seq<NewFile>, i: nat)
    requires i < |files| && DistinctPaths(files)
    ensures Written(files[..i]).Keys == PathSet(files[..i]) && files[i].path !in Written(files[..i])
    ensures Written(files[..i+1]) == Written(files[..i])[files[i].path := files[i].data]
    ensures Paths(files[..i+1]) == Paths(files[..i]) + [files[i].path]
  {
    assert files[..i+1][..i] == files[..i];
    WrittenIs(files[..i]);
  }

  /** Takes back the files created so far when another one failed. */
  method TakeBack(disk: Disk, failed: string, created: seq<string>, weather: seq<Weather>, w: Weather)
    requires disk.Valid() && |created| <= |weather| && w in weather
    requires forall p :: p in created ==> p in disk.made
    requires disk.made.Keys - {failed} == (set p | p in created)
    requires !w.removeFails ==> disk.made.Keys == set p | p in created
    modifies disk`files, disk`made
    ensures disk.Valid() && disk.others == old(disk.others)
    ensures RemovalsSucceed(weather) ==> disk.made == map[]
  {
    Cleanup(disk, created, weather);
    if RemovalsSucceed(weather) {
      RemovedAll(created, weather);
      assert disk.made.Keys == {};
    }
  }

  /** The paths among the first `k` whose removal succeeds. */
  ghost function Removed(created: seq<string>, weather: seq<Weather>, k: nat): set<string>
    requires k <= |created| <= |weather|
  {
    set i | 0 <= i < k && !weather[i].cleanupFails :: created[i]
  }

  lemma RemovedAll(created: seq<string>, weather: seq<Weather>)
    requires |created| <= |weather| && RemovalsSucceed(weather)
    ensures Removed(created, weather, |created|) == set p | p in created
  {
  }

  /** Removes the files created so far, ignoring failures. */
  method Cleanup(disk: Disk, created: seq<string>, weather: seq<Weather>)
    requires disk.Valid() && |created| <= |weather|
    requires forall p :: p in created ==> p in disk.made
    modifies disk`files, disk`made
    ensures disk.Valid()
    ensures disk.made == old(disk.made) - Removed(created, weather, |created|)
  {
    ghost var made := disk.made;
    for k := 0 to |created|
      invariant disk.Valid()
      invariant disk.made == made - Removed(created, weather, k)
    {
      ghost var gone := Removed(created, weather, k);
      assert created[k] in created;
      assert Removed(created, weather, k + 1) == gone + if weather[k].cleanupFails then {} else {created[k]};
      assert made - gone - {created[k]} == made - (gone + {created[k]});
      disk.Remove(created[k], weather[k].cleanupFails);
    }
  }
}
