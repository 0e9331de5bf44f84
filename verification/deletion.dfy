/** BuildService.delete: what is removed with a build, and what another build keeps. */
module Deletion {
  import opened Streams
  import opened Paths
  import References

  /** What a row points at; `paths` lists its export, air-gap and extra exports that are set. */
  datatype Build = Build(active: bool, paths: seq<string>, imageRef: Option<string>)

  datatype Error = NotFound | StillRunning

  datatype Note =
    | KeptShared(path: string)
    | KeptOutside(path: string)
    | NotRemoved(path: string)
    | KeptImage(ref: string)

  datatype Report = Report(freed: nat, imageRemoved: bool, notes: seq<Note>)

  /** What the host answers about a path: the directory entry it names, whether it
      resolves inside an allowed root, and whether removing it is refused. */
  datatype Host = Host(entry: string -> string, inside: string -> bool, refused: string -> bool)

  /** dict.fromkeys(): each value once, in order. */
  function Unique(values: seq<string>): (u: seq<string>)
    ensures forall v :: v in u <==> v in values
    ensures forall i: nat, j: nat :: i < j < |u| ==> u[i] != u[j]
  {
    if values == [] then []
    else
      var init, last := Unique(values[..|values| - 1]), values[|values| - 1];
      if last in init then init else init + [last]
  }

  /** And in the order in which they came first. */
  lemma {:induction false} UniqueInOrder(values: seq<string>) returns (places: seq<nat>)
    ensures |places| == |Unique(values)|
    ensures forall k :: 0 <= k < |places| ==>
              places[k] < |values| && values[places[k]] == Unique(values)[k]
              && Unique(values)[k] !in values[..places[k]]
    ensures forall k, m :: 0 <= k < m < |places| ==> places[k] < places[m]
  {
    if values == [] {
      places := [];
    } else {
      var init, last := values[..|values| - 1], values[|values| - 1];
      places := UniqueInOrder(init);
      assert forall k :: 0 <= k < |places| ==> values[..places[k]] == init[..places[k]];
      if last !in init {
        assert values[..|init|] == init;
        places := places + [|init|];
      }
    }
  }

  ghost predicate Shared(builds: map<string, Build>, id: string, path: string) {
    exists b :: b in builds && b != id && path in builds[b].paths
  }

  /** The paths delete() unlinks: the build's own, named by no other build, inside a root. */
  ghost predicate Doomed(builds: map<string, Build>, id: string, host: Host, path: string)
    requires id in builds
  {
    path in builds[id].paths && !Shared(builds, id, path) && host.inside(path) && !host.refused(path)
  }

  /** Some build is of this image. */
  ghost predicate Named(builds: map<string, Build>, image: string) {
    exists b :: b in builds && builds[b].imageRef == Some(image)
  }

  /** What the notes about paths say. */
  ghost predicate NotesSay(notes: seq<Note>, paths: seq<string>, shared: set<string>, host: Host) {
    && (forall p :: KeptShared(p) in notes <==> p in paths && p in shared)
    && (forall p :: KeptOutside(p) in notes <==> p in paths && p !in shared && !host.inside(p))
    && (forall p :: NotRemoved(p) in notes ==> p in paths && p !in shared && host.inside(p) && host.refused(p))
    && (forall i :: KeptImage(i) !in notes)
  }

  // ------------------------------------------------------------ disk space

  /** The bytes all files on disk take. */
  ghost function Total(disk: map<string, nat>): nat {
    if disk == map[] then 0 else var k :| k in disk; disk[k] + Total(disk - {k})
  }

  lemma {:induction false} TotalWithout(disk: map<string, nat>, k: string)
    requires k in disk
    ensures Total(disk) == disk[k] + Total(disk - {k})
    decreases |disk|
  {
    var first :| first in disk && Total(disk) == disk[first] + Total(disk - {first});
    if first != k {
      TotalWithout(disk - {first}, k);
      TotalWithout(disk - {k}, first);
      assert disk - {first} - {k} == disk - {k} - {first};
    }
  }

  // ----------------------------------------------------------------- delete

  function Names(builds: map<string, Build>, id: string): set<string> {
    set b, p | b in builds && b != id && p in builds[b].paths :: p
  }

  function Refs(builds: map<string, Build>, id: string): set<string> {
    set b | b in builds && b != id && builds[b].imageRef.Some? :: builds[b].imageRef.value
  }

  lemma RefsNamed(builds: map<string, Build>, id: string)
    ensures forall i :: i in Refs(builds, id) <==> Named(builds - {id}, i)
  {
    forall i
      ensures i in Refs(builds, id) <==> Named(builds - {id}, i)
    {
      if i in Refs(builds, id) {
        var b :| b in builds && b != id && builds[b].imageRef.Some? && builds[b].imageRef.value == i;
        assert b in builds - {id};
      }
    }
  }

  class BuildStore {
    var builds: map<string, Build>
    var disk: map<string, nat>      // size by directory entry
    var images: set<string>

    constructor (builds: map<string, Build>, disk: map<string, nat>, images: set<string>)
      ensures this.builds == builds && this.disk == disk && this.images == images
    {
      this.builds, this.disk, this.images := builds, disk, images;
    }

    /** The loop over the build's paths. */
    method RemoveFiles(id: string, host: Host) returns (freed: nat, notes: seq<Note>)
      requires id in builds
      modifies this`disk
      ensures forall e :: e in disk <==>
                e in old(disk) && !exists p :: Doomed(builds, id, host, p) && host.entry(p) == e
      ensures forall e :: e in disk ==> disk[e] == old(disk)[e]
      ensures Total(old(disk)) == Total(disk) + freed
      ensures forall p :: KeptShared(p) in notes <==> p in builds[id].paths && Shared(builds, id, p)
      ensures forall p :: KeptOutside(p) in notes <==>
                            p in builds[id].paths && !Shared(builds, id, p) && !host.inside(p)
      ensures forall p :: NotRemoved(p) in notes ==>
                            p in builds[id].paths && !Shared(builds, id, p) && host.inside(p) && host.refused(p)
      ensures forall i :: KeptImage(i) !in notes
    {
      var shared := Names(builds, id);
      var paths := Unique(builds[id].paths);
      freed, notes := 0, [];
      for k := 0 to |paths|
        invariant RemovedUpTo(old(disk), disk, paths, k, shared, host)
        invariant Total(old(disk)) == Total(disk) + freed
        invariant NotesSay(notes, paths[..k], shared, host)
      {
        var path := paths[k];
        assert paths[..k + 1] == paths[..k] + [path];
        if path in shared {
          notes := notes + [KeptShared(path)];
        } else if !host.inside(path) {
          notes := notes + [KeptOutside(path)];
        } else if host.entry(path) in disk {
          if host.refused(path) {
            notes := notes + [NotRemoved(path)];
          } else {
            TotalWithout(disk, host.entry(path));
            freed := freed + disk[host.entry(path)];
            disk := disk - {host.entry(path)};
          }
        }
      }
      TakeAll(paths);
      RemovedAll(old(disk), disk, paths, shared, host, builds, id);
    }

    /** delete. */
    method Delete(id: string, host: Host, removeImage: bool) returns (r: Result<Report, Error>)
      modifies this
      ensures r.Failure? <==> id !in old(builds) || old(builds)[id].active
      ensures r.Failure? ==> builds == old(builds) && disk == old(disk) && images == old(images)
      ensures r.Success? ==>
                && builds == old(builds) - {id}
                && Total(old(disk)) == Total(disk) + r.value.freed
                && (forall e :: e in disk ==> e in old(disk) && disk[e] == old(disk)[e])
                && (forall e :: e in old(disk) && e !in disk <==>
                      e in old(disk) && exists p :: Doomed(old(builds), id, host, p) && host.entry(p) == e)
      ensures r.Success? ==>
                var ref := old(builds)[id].imageRef;
                && (r.value.imageRemoved <==> removeImage && ref.Some? && !Named(builds, ref.value))
                && (forall i :: i in images <==>
                      i in old(images) && !(removeImage && ref == Some(i) && !Named(builds, i)))
                && (forall i :: KeptImage(i) in r.value.notes <==> removeImage && ref == Some(i) && Named(builds, i))
      ensures r.Success? ==> forall p :: KeptShared(p) in r.value.notes <==>
                                           p in old(builds)[id].paths && Shared(old(builds), id, p)
      ensures r.Success? ==> forall p :: KeptOutside(p) in r.value.notes <==>
                                           p in old(builds)[id].paths && !Shared(old(builds), id, p)
                                           && !host.inside(p)
    {
      if id !in builds {
        return Failure(NotFound);
      }
      if builds[id].active {
        return Failure(StillRunning);
      }
      var freed, notes := RemoveFiles(id, host);
      var imageRemoved := false;
      var ref := builds[id].imageRef;
      RefsNamed(builds, id);
      if removeImage && ref.Some? {
        if ref.value in Refs(builds, id) {
          notes := notes + [KeptImage(ref.value)];
        } else {
          images := images - {ref.value};
          imageRemoved := true;
        }
      }
      builds := builds - {id};
      r := Success(Report(freed, imageRemoved, notes));
    }
  }

  /** The first k paths are dealt with. */
  ghost predicate Goes(path: string, shared: set<string>, host: Host) {
    path !in shared && host.inside(path) && !host.refused(path)
  }

  ghost predicate GoneBy(paths: seq<string>, k: nat, shared: set<string>, host: Host, e: string)
    requires k <= |paths|
  {
    exists i: nat :: i < k && Goes(paths[i], shared, host) && host.entry(paths[i]) == e
  }

  ghost predicate RemovedUpTo(before: map<string, nat>, disk: map<string, nat>, paths: seq<string>, k: nat,
                              shared: set<string>, host: Host)
    requires k <= |paths|
  {
    && (forall e :: e in disk <==> e in before && !GoneBy(paths, k, shared, host, e))
    && (forall e :: e in disk ==> e in before && disk[e] == before[e])
  }

  lemma RemovedAll(before: map<string, nat>, disk: map<string, nat>, paths: seq<string>, shared: set<string>,
                   host: Host, builds: map<string, Build>, id: string)
    requires id in builds && shared == Names(builds, id) && forall v :: v in paths <==> v in builds[id].paths
    requires RemovedUpTo(before, disk, paths, |paths|, shared, host)
    ensures forall e :: e in disk <==>
              e in before && !exists p :: Doomed(builds, id, host, p) && host.entry(p) == e
    ensures forall e :: e in disk ==> disk[e] == before[e]
  {
  }

  // ----------------------------------------------------------- main results

  /** Two spellings of one directory entry. */
  ghost predicate Alias(host: Host, p: string, q: string) { p != q && host.entry(p) == host.entry(q) }

  /** A file that another build names is kept, exactly unless the deleted build names
      the same entry by another spelling that no other build uses. */
  lemma OthersFilesStay(builds: map<string, Build>, id: string, host: Host, before: map<string, nat>,
                        after: map<string, nat>, b: string, q: string)
    requires id in builds && b in builds && b != id && q in builds[b].paths && host.entry(q) in before
    requires forall e :: e in before && e !in after <==>
               e in before && exists p :: Doomed(builds, id, host, p) && host.entry(p) == e
    ensures host.entry(q) in after <==> forall p :: Doomed(builds, id, host, p) ==> !Alias(host, p, q)
  {
    assert Shared(builds, id, q);
    if host.entry(q) !in after {
      var p :| Doomed(builds, id, host, p) && host.entry(p) == host.entry(q);
      assert Alias(host, p, q);
    }
  }

  /** Nothing outside the allowed roots is ever removed. */
  lemma OutsideStays(builds: map<string, Build>, id: string, host: Host, before: map<string, nat>,
                     after: map<string, nat>, e: string)
    requires id in builds && e in before && forall p :: host.entry(p) == e ==> !host.inside(p)
    requires forall x :: x in before && x !in after <==>
               x in before && exists p :: Doomed(builds, id, host, p) && host.entry(p) == x
    ensures e in after
  {
  }

  // ---- Over many deletions ----

  /** No build spells a path in two ways. */
  ghost predicate OneSpelling(builds: map<string, Build>, host: Host) {
    forall a, b, p, q :: a in builds && b in builds && p in builds[a].paths && q in builds[b].paths
                         ==> !Alias(host, p, q)
  }

  ghost predicate Outside(host: Host, e: string) {
    forall p :: host.entry(p) == e ==> !host.inside(p)
  }

  /** Every file that a build names and that was there is there. */
  ghost predicate FilesKept(builds: map<string, Build>, host: Host, was: map<string, nat>, disk: map<string, nat>) {
    forall b, q :: b in builds && q in builds[b].paths && host.entry(q) in was ==> host.entry(q) in disk
  }

  lemma DeletionKeepsFiles(builds: map<string, Build>, id: string, host: Host, was: map<string, nat>,
                           before: map<string, nat>, after: map<string, nat>)
    requires id in builds && OneSpelling(builds, host) && FilesKept(builds, host, was, before)
    requires forall e :: e in before && e !in after <==>
               e in before && exists p :: Doomed(builds, id, host, p) && host.entry(p) == e
    ensures FilesKept(builds - {id}, host, was, after)
  {
    forall b, q | b in builds - {id} && q in builds[b].paths && host.entry(q) in was
      ensures host.entry(q) in after
    {
      OthersFilesStay(builds, id, host, before, after, b, q);
      forall p | Doomed(builds, id, host, p)
        ensures !Alias(host, p, q)
      {
        assert p in builds[id].paths;
      }
    }
  }

  /** An image that was there is there while a build is of it, and gone once none is; no
      other image is touched. */
  ghost predicate ImagesKept(was: map<string, Build>, builds: map<string, Build>, before: set<string>,
                             images: set<string>, removeImage: bool) {
    && (forall i :: Named(builds, i) ==> Named(was, i))
    && (forall i :: i in before && Named(builds, i) ==> i in images)
    && (removeImage ==> forall i :: Named(was, i) && !Named(builds, i) ==> i !in images)
    && (forall i :: i in images ==> i in before)
    && (forall i :: i in before && (!removeImage || !Named(was, i)) ==> i in images)
  }

  /** Without one build, its image may no longer be named, and every other still is. */
  lemma FewerNamed(builds: map<string, Build>, id: string)
    requires id in builds
    ensures forall i :: Named(builds - {id}, i) ==> Named(builds, i)
    ensures forall i :: Named(builds, i) ==> Named(builds - {id}, i) || builds[id].imageRef == Some(i)
    ensures builds[id].imageRef.Some? ==> Named(builds, builds[id].imageRef.value)
  {
    forall i | Named(builds, i)
      ensures Named(builds - {id}, i) || builds[id].imageRef == Some(i)
    {
      var b :| b in builds && builds[b].imageRef == Some(i);
      assert b != id ==> b in builds - {id};
    }
  }

  /** Any deletions in any order: running builds stay, nothing outside the roots goes, the
      bytes freed add up, and while no path is spelled in two ways every build that is
      left still has all its files. Images go exactly with the last build that is of them. */
  method DeleteAll(store: BuildStore, ids: seq<string>, host: Host, removeImage: bool) returns (freed: nat)
    modifies store
    ensures store.builds.Keys <= old(store.builds).Keys
    ensures forall b :: b in old(store.builds) && (old(store.builds)[b].active || b !in ids) ==> b in store.builds
    ensures forall b :: b in store.builds ==> store.builds[b] == old(store.builds)[b]
    ensures Total(old(store.disk)) == Total(store.disk) + freed
    ensures forall e :: e in old(store.disk) && Outside(host, e) ==> e in store.disk
    ensures old(OneSpelling(store.builds, host)) ==> FilesKept(store.builds, host, old(store.disk), store.disk)
    ensures forall i :: i in old(store.images) && Named(store.builds, i) ==> i in store.images
    ensures removeImage ==> forall i :: Named(old(store.builds), i) && !Named(store.builds, i) ==> i !in store.images
    ensures forall i :: i in store.images ==> i in old(store.images)
    ensures forall i :: i in old(store.images) && (!removeImage || !Named(old(store.builds), i)) ==> i in store.images
  {
    freed := 0;
    for i := 0 to |ids|
      invariant store.builds.Keys <= old(store.builds).Keys
      invariant forall b :: b in old(store.builds) && (old(store.builds)[b].active || b !in ids[..i])
                            ==> b in store.builds
      invariant forall b :: b in store.builds ==> store.builds[b] == old(store.builds)[b]
      invariant Total(old(store.disk)) == Total(store.disk) + freed
      invariant forall e :: e in old(store.disk) && Outside(host, e) ==> e in store.disk
      invariant old(OneSpelling(store.builds, host)) ==>
                  OneSpelling(store.builds, host) && FilesKept(store.builds, host, old(store.disk), store.disk)
      invariant ImagesKept(old(store.builds), store.builds, old(store.images), store.images, removeImage)
    {
      ghost var builds, disk := store.builds, store.disk;
      var r := store.Delete(ids[i], host, removeImage);
      if r.Success? {
        freed := freed + r.value.freed;
        FewerNamed(builds, ids[i]);
        if OneSpelling(builds, host) && FilesKept(builds, host, old(store.disk), disk) {
          DeletionKeepsFiles(builds, ids[i], host, old(store.disk), disk, store.disk);
        }
      }
    }
  }

  // ---- Without symbolic links ----

  predicate InsideOne(path: string, roots: seq<string>) {
    exists i :: 0 <= i < |roots| && Inside(path, roots[i])
  }

  /** What a host without symbolic links answers when it refuses nothing. */
  function LocalHost(roots: seq<string>): Host {
    Host(Entry, (path: string) => InsideOne(path, roots), (path: string) => false)
  }

  /** Every path is one that pathlib wrote, without "..". */
  ghost predicate StraightPaths(builds: map<string, Build>) {
    forall b, p :: b in builds && p in builds[b].paths ==> Stored(p) && ".." !in PartsOf(p)
  }

  /** Then no file is spelled in two ways. */
  lemma StraightIsOneSpelling(builds: map<string, Build>, roots: seq<string>)
    requires StraightPaths(builds)
    ensures OneSpelling(builds, LocalHost(roots))
  {
    forall a, b, p, q | a in builds && b in builds && p in builds[a].paths && q in builds[b].paths
      ensures !Alias(LocalHost(roots), p, q)
    {
      EntryIsItself(p);
      EntryIsItself(q);
    }
  }

  /** The archive of a build in an image directory without "..", as the settings page
      asks for, is such a path. */
  lemma ArchiveIsStraight(directory: string, name: string)
    requires IsPart(name) && name != ".." && ".." !in PartsOf(directory)
    ensures var p := PathText(directory + "/" + name); Stored(p) && ".." !in PartsOf(p)
  {
    PathTextIsStored(directory + "/" + name);
    PartsAreParts(directory + "/" + name);
    PartsOfText(PartsOf(directory + "/" + name));
    FileIn(directory, name);
  }

  ghost predicate IsDirectory(parts: seq<string>) { parts != [] && Parts(parts) && ".." !in parts }

  function Archive(directory: seq<string>, name: string): string { TextOf(directory + [name]) }

  lemma ArchiveInside(directory: seq<string>, name: string)
    requires IsDirectory(directory) && IsPart(name) && name != ".."
    ensures var p := Archive(directory, name);
            Stored(p) && Entry(p) == p && PartsOf(p) == directory + [name]
  {
    PartsOfText(directory + [name]);
    WalkIsWhole(directory + [name]);
  }

  lemma InsideDirectory(p: string, directory: seq<string>, name: string)
    requires IsDirectory(directory) && Walk(PartsOf(p)) == directory + [name]
    ensures LocalHost([TextOf(directory)]).inside(p)
  {
    PartsOfText(directory);
    WalkIsWhole(directory);
    assert Inside(p, [TextOf(directory)][0]);
  }

  /** The same archive by way of another directory. */
  lemma ArchiveRoundabout(top: string, directory: seq<string>, name: string)
    requires IsPart(top) && top != ".." && IsDirectory(directory) && IsPart(name) && name != ".."
    ensures var p, q := Archive([top, ".."] + directory, name), Archive(directory, name);
            Stored(p) && p != q && Entry(p) == q && LocalHost([TextOf(directory)]).inside(p)
  {
    Associate([top, ".."], directory, [name]);
    TwoSpellings(top, directory + [name]);
    InsideDirectory(Archive([top, ".."] + directory, name), directory, name);
  }

  function Rebuilt(p: string, q: string, r: string): map<string, Build> {
    map["a" := Build(false, [p], None), "b" := Build(false, [q], None), "c" := Build(false, [r], None)]
  }

  function Left(q: string, r: string): map<string, Build> {
    map["b" := Build(false, [q], None), "c" := Build(false, [r], None)]
  }

  lemma GoneAlone(p: string, q: string, r: string, host: Host, e: string)
    requires p != q && p != r && host.inside(p) && !host.refused(p)
    ensures (exists x :: Doomed(Rebuilt(p, q, r), "a", host, x) && host.entry(x) == e) <==> host.entry(p) == e
  {
    var builds := Rebuilt(p, q, r);
    assert builds["b"].paths == [q] && builds["c"].paths == [r] && builds["a"].paths == [p];
    forall x ensures Doomed(builds, "a", host, x) <==> x == p {
    }
  }

  lemma LeftOf(p: string, q: string, r: string)
    ensures Rebuilt(p, q, r) - {"a"} == Left(q, r)
  {
  }

  lemma DiskLeft(q: string, r: string, before: map<string, nat>, after: map<string, nat>, gone: string -> bool)
    requires q != r && before == map[q := 100, r := 50]
    requires forall e :: e in before && e !in after <==> e in before && gone(e)
    requires forall e :: e in after ==> e in before && after[e] == before[e]
    requires gone(q) && !gone(r)
    ensures after == map[r := 50]
  {
    assert q in before && r in before;
  }

  ghost function Gone(builds: map<string, Build>, id: string, host: Host): string -> bool
    requires id in builds
  {
    (e: string) => exists x :: Doomed(builds, id, host, x) && host.entry(x) == e
  }

  lemma AfterDeletion(p: string, q: string, r: string, host: Host, before: map<string, nat>, after: map<string, nat>)
    requires p != q && p != r && q != r && host.entry(p) == q && host.inside(p) && !host.refused(p)
    requires before == map[q := 100, r := 50]
    requires forall e :: e in before && e !in after <==>
               e in before && exists x :: Doomed(Rebuilt(p, q, r), "a", host, x) && host.entry(x) == e
    requires forall e :: e in after ==> e in before && after[e] == before[e]
    ensures after == map[r := 50]
  {
    GoneAlone(p, q, r, host, q);
    GoneAlone(p, q, r, host, r);
    DiskLeft(q, r, before, after, Gone(Rebuilt(p, q, r), "a", host));
  }

  /** "b" was built after "a" under the same name and version, and the image directory was
      spelled "/srv/../images", say, before and "/images" since: deleting "a" takes the
      archive that "b" names, and no other. */
  method SecondSpelling(top: string, directory: seq<string>, name: string, other: string)
    returns (store: BuildStore)
    requires IsPart(top) && top != ".." && IsDirectory(directory)
    requires IsPart(name) && name != ".." && IsPart(other) && other != ".." && name != other
    ensures fresh(store)
    ensures var q, r := Archive(directory, name), Archive(directory, other);
            && Stored(Archive([top, ".."] + directory, name)) && Stored(q) && Stored(r)
            && store.builds == Left(q, r) && store.disk == map[r := 50]
  {
    var p := Archive([top, ".."] + directory, name);
    var q, r := Archive(directory, name), Archive(directory, other);
    ArchiveInside(directory, name);
    ArchiveInside(directory, other);
    ArchiveRoundabout(top, directory, name);
    DifferentNames(directory, name, other);
    store := DeleteFirst(p, q, r, LocalHost([TextOf(directory)]));
  }

  lemma DifferentNames(directory: seq<string>, name: string, other: string)
    requires IsDirectory(directory) && IsPart(name) && name != ".." && IsPart(other) && other != ".."
    requires name != other
    ensures Archive(directory, name) != Archive(directory, other)
  {
    ArchiveInside(directory, name);
    ArchiveInside(directory, other);
    assert (directory + [name])[|directory|] != (directory + [other])[|directory|];
  }

  method DeleteFirst(p: string, q: string, r: string, host: Host) returns (store: BuildStore)
    requires p != q && p != r && q != r && host.entry(p) == q && host.inside(p) && !host.refused(p)
    ensures fresh(store) && store.builds == Left(q, r) && store.disk == map[r := 50]
  {
    store := new BuildStore(Rebuilt(p, q, r), map[q := 100, r := 50], {});
    var report := store.Delete("a", host, true);
    LeftOf(p, q, r);
    AfterDeletion(p, q, r, host, map[q := 100, r := 50], store.disk);
  }

  /** For example. */
  lemma SrvImages()
    ensures IsPart("srv") && IsDirectory(["images"]) && IsPart("a.tar") && IsPart("b.tar")
    ensures Archive(["images"], "a.tar") == "/images/a.tar"
    ensures Archive(["srv", "..", "images"], "a.tar") == "/srv/../images/a.tar"
  {
    SrvParts();
    JoinTwo("images", "a.tar");
    JoinFour("srv", "..", "images", "a.tar");
    SrvTexts();
  }

  lemma SrvParts()
    ensures IsPart("srv") && IsDirectory(["images"]) && IsPart("a.tar") && IsPart("b.tar")
  {
  }

  lemma SrvTexts()
    ensures "/" + ("images" + "/" + "a.tar") == "/images/a.tar"
    ensures "/" + ("srv" + "/" + (".." + "/" + ("images" + "/" + "a.tar"))) == "/srv/../images/a.tar"
  {
  }

  lemma JoinTwo(a: string, b: string)
    ensures TextOf([a] + [b]) == "/" + (a + "/" + b)
  {
    References.JoinOf(a, [b]);
  }

  lemma JoinFour(a: string, b: string, c: string, d: string)
    ensures TextOf([a, b, c] + [d]) == "/" + (a + "/" + (b + "/" + (c + "/" + d)))
  {
    References.JoinOf(c, [d]);
    References.JoinOf(b, [c] + [d]);
    References.JoinOf(a, [b] + ([c] + [d]));
    assert [a] + ([b] + ([c] + [d])) == [a, b, c] + [d];
  }
}
