/**
  `FSaveManager`: saving a world. The chunks marked for saving are packed into
  sub-chunks and grouped by the region they are assigned to; every region is
  written to its own file, then the world header. Compressing an archive and
  writing the file are foreign code: the write to a path in `failing` fails,
  every other write stores the archive.
*/
module Saving {
  import opened VoxelMap
  import opened SaveInfo
  import opened ByteFields
  import opened Files
  import opened Paths
  import opened ReadWrite
  import opened CodecProperties
  import opened WorldProperties
  import opened ChunkCoords
  import opened Packing
  import opened Chunks

  // Grouping sub-chunks by region

  /** What one marked chunk contributes: its region and its sub-chunks. */
  datatype ChunkSave = ChunkSave(region: Vec2i, subChunks: seq<ChunkInformation>)

  /** Where `regionMap` holds the region at `p`, or -1. */
  function RegionSlot(regions: seq<RegionInformation>, p: Vec2i): (i: int)
    ensures -1 <= i < |regions|
    ensures i >= 0 ==> regions[i].position == p
    ensures i < 0 ==> forall j :: 0 <= j < |regions| ==> regions[j].position != p
    decreases |regions|
  {
    if regions == [] then -1
    else
      var i := RegionSlot(regions[..|regions| - 1], p);
      if i >= 0 then i else if regions[|regions| - 1].position == p then |regions| - 1 else -1
  }

  /**
    One chunk's sub-chunks added to the region map: a region at `p` is created,
    valid and empty, when there is none, and its chunk count follows its list.
  */
  function AddSubChunks(regions: seq<RegionInformation>, p: Vec2i, subChunks: seq<ChunkInformation>): seq<RegionInformation> {
    var i := RegionSlot(regions, p);
    if i < 0 then regions + [RegionInformation(p, subChunks, |subChunks|, true)]
    else
      var chunks := regions[i].containedChunks + subChunks;
      regions[i := regions[i].(containedChunks := chunks, numOfChunks := |chunks|)]
  }

  /** The region map after every save in `saves`, in order. */
  function Grouped(saves: seq<ChunkSave>): seq<RegionInformation>
    decreases |saves|
  {
    if saves == [] then []
    else
      var last := saves[|saves| - 1];
      AddSubChunks(Grouped(saves[..|saves| - 1]), last.region, last.subChunks)
  }

  /** The region positions of a region list, in order. */
  function Positions(regions: seq<RegionInformation>): seq<Vec2i> {
    seq(|regions|, i requires 0 <= i < |regions| => regions[i].position)
  }

  /** The regions of the saved chunks, in order. */
  function Targets(saves: seq<ChunkSave>): seq<Vec2i> {
    seq(|saves|, i requires 0 <= i < |saves| => saves[i].region)
  }

  /** All sub-chunks of the chunks in region `p`, in chunk order: the reference for a region's list. */
  function Collected(saves: seq<ChunkSave>, p: Vec2i): seq<ChunkInformation>
    decreases |saves|
  {
    if saves == [] then []
    else
      var last := saves[|saves| - 1];
      Collected(saves[..|saves| - 1], p) + (if last.region == p then last.subChunks else [])
  }

  lemma {:induction false} CollectedOfAbsent(saves: seq<ChunkSave>, p: Vec2i)
    requires p !in Targets(saves)
    ensures Collected(saves, p) == []
    decreases |saves|
  {
    if saves != [] {
      var front := saves[..|saves| - 1];
      assert Targets(saves)[|saves| - 1] == saves[|saves| - 1].region;
      forall q | q in Targets(front) ensures q in Targets(saves) {
        var i :| 0 <= i < |front| && Targets(front)[i] == q;
        assert Targets(saves)[i] == q;
      }
      CollectedOfAbsent(front, p);
    }
  }

  /** Regions grouped from chunks: one per region position, each holding what `Collected` holds. */
  ghost predicate GroupedBy(g: seq<RegionInformation>, saves: seq<ChunkSave>) {
    (forall i, j :: 0 <= i < j < |g| ==> g[i].position != g[j].position)
    && (forall i :: 0 <= i < |g| ==>
          g[i].bValidInformation && g[i].containedChunks == Collected(saves, g[i].position)
          && g[i].numOfChunks == |g[i].containedChunks|)
    && (forall p :: p in Positions(g) <==> p in Targets(saves))
  }

  /**
    The region map has exactly one region for every region a marked chunk is
    assigned to; each is valid, holds the sub-chunks of its chunks in chunk
    order, and counts them.
  */
  lemma {:induction false} GroupedSpec(saves: seq<ChunkSave>)
    ensures GroupedBy(Grouped(saves), saves)
    decreases |saves|
  {
    if saves != [] {
      var front, last := saves[..|saves| - 1], saves[|saves| - 1];
      GroupedSpec(front);
      GroupedStep(Grouped(front), front, last);
      assert front + [last] == saves;
    }
  }

  /** Every grouped region is valid, and no two share a position. */
  lemma GroupedRegions(saves: seq<ChunkSave>)
    ensures forall i :: 0 <= i < |Grouped(saves)| ==> Grouped(saves)[i].bValidInformation
    ensures forall i, j :: 0 <= i < j < |Grouped(saves)| ==> Grouped(saves)[i].position != Grouped(saves)[j].position
  {
    GroupedSpec(saves);
  }

  /** Adding one chunk's sub-chunks keeps the grouping exact. */
  lemma GroupedStep(g: seq<RegionInformation>, front: seq<ChunkSave>, last: ChunkSave)
    requires GroupedBy(g, front)
    ensures GroupedBy(AddSubChunks(g, last.region, last.subChunks), front + [last])
  {
    var saves := front + [last];
    var g' := AddSubChunks(g, last.region, last.subChunks);
    assert saves[..|saves| - 1] == front;
    assert forall p :: Collected(saves, p) == Collected(front, p) + (if last.region == p then last.subChunks else []);
    assert forall p :: p in Targets(saves) <==> p in Targets(front) || p == last.region by {
      assert Targets(saves) == Targets(front) + [last.region];
    }
    var i := RegionSlot(g, last.region);
    if i < 0 {
      assert last.region !in Positions(g);
      CollectedOfAbsent(front, last.region);
      assert Positions(g') == Positions(g) + [last.region];
    } else {
      assert Positions(g') == Positions(g);
      assert Positions(g)[i] == last.region;
      assert forall j :: 0 <= j < |g'| ==> g'[j].position == g[j].position;
      forall j | 0 <= j < |g'|
        ensures g'[j].bValidInformation && g'[j].containedChunks == Collected(saves, g'[j].position)
          && g'[j].numOfChunks == |g'[j].containedChunks|
      {
        if j != i {
          assert g'[j] == g[j] && g[j].position != last.region;
        }
      }
    }
  }

  // Writing the files

  /** What a region, world or save run leaves behind. */
  datatype Outcome = Outcome(succeeded: bool, world: WorldInformation, files: FileStore)

  /** Writing `archive` to `path`: an empty archive or a failing path is refused and nothing is stored. */
  function WriteFile(files: FileStore, path: string, archive: seq<byte>, failing: set<string>): (bool, FileStore) {
    if |archive| <= 0 || path in failing then (false, files) else (true, files[path := FileContent.Stored(archive)])
  }

  /**
    Writing the regions one by one, region `r` to `pathOf(r.position)`: the
    first failed write ends the run, and every written region's position is
    added to the world's region set.
  */
  function RegionsWritten(world: WorldInformation, regions: seq<RegionInformation>, pathOf: Vec2i -> string,
                          files: FileStore, failing: set<string>): Outcome
    decreases |regions|
  {
    if regions == [] then Outcome(true, world, files)
    else
      var o := RegionsWritten(world, regions[..|regions| - 1], pathOf, files, failing);
      if !o.succeeded then o else RegionWritten(o, regions[|regions| - 1], pathOf, failing)
  }

  /** Writing one region after the earlier ones were written: on success its position joins the region set. */
  function RegionWritten(o: Outcome, region: RegionInformation, pathOf: Vec2i -> string, failing: set<string>): Outcome {
    var w := WriteFile(o.files, pathOf(region.position), EncodeRegion(region), failing);
    if !w.0 then Outcome(false, o.world, w.1)
    else
      var set' := SetAdd(o.world.containedRegions, region.position);
      Outcome(true, o.world.(containedRegions := set', numOfRegions := |set'|), w.1)
  }

  /**
    One region is written exactly when it is valid and its file does not
    fail; then its file holds its archive and its position is in the set;
    otherwise nothing changes.
  */
  lemma RegionWrittenSpec(o: Outcome, region: RegionInformation, pathOf: Vec2i -> string, failing: set<string>)
    ensures var o' := RegionWritten(o, region, pathOf, failing);
      var path := pathOf(region.position);
      (o'.succeeded <==> region.bValidInformation && path !in failing)
      && (o'.succeeded ==>
            o'.files == o.files[path := FileContent.Stored(EncodeRegion(region))]
            && o'.world == o.world.(containedRegions := SetAdd(o.world.containedRegions, region.position),
                                    numOfRegions := |SetAdd(o.world.containedRegions, region.position)|))
      && (!o'.succeeded ==> o' == Outcome(false, o.world, o.files))
  {
    RegionArchiveEmpty(region);
  }

  /** `FSaveManager::SaveWorld` on the chunks' contributions `saves`. */
  function SaveOutcome(world: WorldInformation, saves: seq<ChunkSave>, savedDir: string,
                       files: FileStore, failing: set<string>): Outcome
  {
    if !world.bValidInformation then Outcome(false, world, files)
    else WorldWritten(world, Grouped(saves), RegionFiles(savedDir, world.name), GetWorldPath(savedDir, world.name), files, failing)
  }

  /** The regions written, then, when they all were, the world header to `worldPath`. */
  function WorldWritten(world: WorldInformation, regions: seq<RegionInformation>, pathOf: Vec2i -> string,
                        worldPath: string, files: FileStore, failing: set<string>): Outcome
  {
    var o := RegionsWritten(world, regions, pathOf, files, failing);
    if !o.succeeded then o
    else
      var w := WriteFile(o.files, worldPath, EncodeWorld(o.world), failing);
      Outcome(w.0, o.world, w.1)
  }

  /** The region set after adding `ps` one by one. */
  function AddAll(s: seq<Vec2i>, ps: seq<Vec2i>): seq<Vec2i>
    decreases |ps|
  {
    if ps == [] then s else SetAdd(AddAll(s, ps[..|ps| - 1]), ps[|ps| - 1])
  }

  /** The files of `regions`. */
  function RegionPaths(pathOf: Vec2i -> string, regions: seq<RegionInformation>): set<string> {
    set i | 0 <= i < |regions| :: pathOf(regions[i].position)
  }

  /** Writing regions changes only the world's region set and count, and only the region files. */
  lemma {:induction false} RegionsWrittenFrame(world: WorldInformation, regions: seq<RegionInformation>, pathOf: Vec2i -> string,
                                               files: FileStore, failing: set<string>)
    ensures var o := RegionsWritten(world, regions, pathOf, files, failing);
      o.world == world.(containedRegions := o.world.containedRegions, numOfRegions := o.world.numOfRegions)
      && (forall path :: path !in RegionPaths(pathOf, regions) ==>
            (path in o.files <==> path in files) && (path in files ==> o.files[path] == files[path]))
    decreases |regions|
  {
    if regions != [] {
      var front, last := regions[..|regions| - 1], regions[|regions| - 1];
      RegionsWrittenFrame(world, front, pathOf, files, failing);
      RegionWrittenSpec(RegionsWritten(world, front, pathOf, files, failing), last, pathOf, failing);
      assert RegionPaths(pathOf, regions) == RegionPaths(pathOf, front) + {pathOf(last.position)} by {
        assert forall i :: 0 <= i < |front| ==> front[i] == regions[i];
      }
    }
  }

  /** Only an invalid region has an empty archive. */
  lemma RegionArchiveEmpty(r: RegionInformation)
    ensures |EncodeRegion(r)| <= 0 <==> !r.bValidInformation
  {
    EncodeRegionLength(r);
  }

  /** The first failed write ends the run: the regions after it are not written. */
  lemma {:induction false} RegionsWrittenStops(world: WorldInformation, regions: seq<RegionInformation>, pathOf: Vec2i -> string,
                                               files: FileStore, failing: set<string>, k: nat)
    requires k <= |regions| && !RegionsWritten(world, regions[..k], pathOf, files, failing).succeeded
    ensures RegionsWritten(world, regions, pathOf, files, failing) == RegionsWritten(world, regions[..k], pathOf, files, failing)
    decreases |regions|
  {
    if k < |regions| {
      var front := regions[..|regions| - 1];
      assert front[..k] == regions[..k];
      RegionsWrittenStops(world, front, pathOf, files, failing, k);
    } else {
      assert regions[..k] == regions;
    }
  }

  /** A region that can be written: it is valid and its file does not fail. */
  predicate Writable(region: RegionInformation, pathOf: Vec2i -> string, failing: set<string>) {
    region.bValidInformation && pathOf(region.position) !in failing
  }

  /** Writing regions succeeds exactly when every region is valid and no region file fails. */
  lemma {:induction false} RegionsWrittenSucceeds(world: WorldInformation, regions: seq<RegionInformation>, pathOf: Vec2i -> string,
                                                  files: FileStore, failing: set<string>)
    ensures RegionsWritten(world, regions, pathOf, files, failing).succeeded
      <==> forall i :: 0 <= i < |regions| ==> Writable(regions[i], pathOf, failing)
    decreases |regions|
  {
    if regions != [] {
      var front, last := regions[..|regions| - 1], regions[|regions| - 1];
      RegionsWrittenSucceeds(world, front, pathOf, files, failing);
      var o := RegionsWritten(world, front, pathOf, files, failing);
      RegionWrittenSpec(o, last, pathOf, failing);
      assert RegionsWritten(world, regions, pathOf, files, failing).succeeded
        == (o.succeeded && RegionWritten(o, last, pathOf, failing).succeeded);
      AllWritableSplit(regions, front, pathOf, failing);
    }
  }

  lemma AllWritableSplit(regions: seq<RegionInformation>, front: seq<RegionInformation>, pathOf: Vec2i -> string, failing: set<string>)
    requires regions != [] && front == regions[..|regions| - 1]
    ensures (forall i :: 0 <= i < |regions| ==> Writable(regions[i], pathOf, failing))
      <==> (forall i :: 0 <= i < |front| ==> Writable(front[i], pathOf, failing))
           && Writable(regions[|regions| - 1], pathOf, failing)
  {
    assert forall i :: 0 <= i < |front| ==> front[i] == regions[i];
  }

  /** `files` holds the archive of `region` in the region's file. */
  predicate HoldsRegion(files: FileStore, pathOf: Vec2i -> string, region: RegionInformation) {
    pathOf(region.position) in files && files[pathOf(region.position)] == FileContent.Stored(EncodeRegion(region))
  }

  /** After a successful run every region file holds its region's archive. */
  lemma RegionsWrittenStored(world: WorldInformation, regions: seq<RegionInformation>, pathOf: Vec2i -> string,
                             files: FileStore, failing: set<string>)
    requires forall i, j :: 0 <= i < j < |regions| ==> pathOf(regions[i].position) != pathOf(regions[j].position)
    ensures RegionsWritten(world, regions, pathOf, files, failing).succeeded ==>
      forall i :: 0 <= i < |regions| ==> HoldsRegion(RegionsWritten(world, regions, pathOf, files, failing).files, pathOf, regions[i])
  {
    var o := RegionsWritten(world, regions, pathOf, files, failing);
    forall i | 0 <= i < |regions| ensures o.succeeded ==> HoldsRegion(o.files, pathOf, regions[i]) {
      RegionWrittenStoredAt(world, regions, pathOf, files, failing, i);
    }
  }

  lemma {:induction false} RegionWrittenStoredAt(world: WorldInformation, regions: seq<RegionInformation>, pathOf: Vec2i -> string,
                                                 files: FileStore, failing: set<string>, i: int)
    requires forall i, j :: 0 <= i < j < |regions| ==> pathOf(regions[i].position) != pathOf(regions[j].position)
    requires 0 <= i < |regions|
    ensures RegionsWritten(world, regions, pathOf, files, failing).succeeded ==>
      HoldsRegion(RegionsWritten(world, regions, pathOf, files, failing).files, pathOf, regions[i])
    decreases |regions|
  {
    var front, last := regions[..|regions| - 1], regions[|regions| - 1];
    var o := RegionsWritten(world, front, pathOf, files, failing);
    RegionWrittenSpec(o, last, pathOf, failing);
    if i < |front| {
      assert forall i, j :: 0 <= i < j < |front| ==> front[i] == regions[i] && front[j] == regions[j];
      RegionWrittenStoredAt(world, front, pathOf, files, failing, i);
      assert front[i] == regions[i];
      assert pathOf(regions[i].position) != pathOf(last.position);
    }
  }

  /** After a successful run every region's position has been added to the world's region set, which it counts. */
  lemma {:induction false} RegionsWrittenListed(world: WorldInformation, regions: seq<RegionInformation>, pathOf: Vec2i -> string,
                                                files: FileStore, failing: set<string>)
    ensures var o := RegionsWritten(world, regions, pathOf, files, failing);
      o.succeeded ==>
        o.world.containedRegions == AddAll(world.containedRegions, Positions(regions))
        && (regions != [] ==> o.world.numOfRegions == |o.world.containedRegions|)
    decreases |regions|
  {
    if regions != [] {
      var front, last := regions[..|regions| - 1], regions[|regions| - 1];
      RegionsWrittenListed(world, front, pathOf, files, failing);
      RegionWrittenSpec(RegionsWritten(world, front, pathOf, files, failing), last, pathOf, failing);
      assert Positions(regions)[..|regions| - 1] == Positions(front);
    }
  }

  /** Adding positions one by one keeps a set a set, and it then holds all of them. */
  lemma {:induction false} AddAllSpec(s: seq<Vec2i>, ps: seq<Vec2i>)
    requires NoDuplicates(s)
    ensures NoDuplicates(AddAll(s, ps))
    ensures forall q :: q in AddAll(s, ps) <==> q in s || q in ps
    decreases |ps|
  {
    if ps != [] {
      var front := ps[..|ps| - 1];
      AddAllSpec(s, front);
      SetAddSpec(AddAll(s, front), ps[|ps| - 1]);
      assert ps == front + [ps[|ps| - 1]];
    }
  }

  /** The regions of one world are saved to different files, none of them the world file. */
  lemma RegionFilesDistinct(savedDir: string, name: string, g: seq<RegionInformation>)
    requires forall i, j :: 0 <= i < j < |g| ==> g[i].position != g[j].position
    ensures forall i, j :: 0 <= i < j < |g| ==> RegionFiles(savedDir, name)(g[i].position) != RegionFiles(savedDir, name)(g[j].position)
    ensures GetWorldPath(savedDir, name) !in RegionPaths(RegionFiles(savedDir, name), g)
  {
    forall i, j | 0 <= i < j < |g|
      ensures RegionFiles(savedDir, name)(g[i].position) != RegionFiles(savedDir, name)(g[j].position)
    {
      RegionPathInjective(savedDir, name, g[i].position, g[j].position);
    }
    forall i | 0 <= i < |g| ensures RegionFiles(savedDir, name)(g[i].position) != GetWorldPath(savedDir, name) {
      WorldPathIsNoRegionPath(savedDir, name, g[i].position);
    }
  }

  /**
    Writing a valid world's regions and then its header succeeds exactly
    when every region is valid and neither a region file nor the world file
    fails.
  */
  lemma WorldWrittenSucceeds(world: WorldInformation, regions: seq<RegionInformation>, pathOf: Vec2i -> string,
                             worldPath: string, files: FileStore, failing: set<string>)
    requires world.bValidInformation
    ensures WorldWritten(world, regions, pathOf, worldPath, files, failing).succeeded
      <==> worldPath !in failing && forall i :: 0 <= i < |regions| ==> Writable(regions[i], pathOf, failing)
  {
    RegionsWrittenFrame(world, regions, pathOf, files, failing);
    RegionsWrittenSucceeds(world, regions, pathOf, files, failing);
    EncodeWorldLength(RegionsWritten(world, regions, pathOf, files, failing).world);
  }

  /**
    After a successful write every region is in its own file, the world's
    region set holds their positions, and the world file holds the updated
    world.
  */
  lemma WorldWrittenStored(world: WorldInformation, regions: seq<RegionInformation>, pathOf: Vec2i -> string,
                           worldPath: string, files: FileStore, failing: set<string>)
    requires forall i, j :: 0 <= i < j < |regions| ==> pathOf(regions[i].position) != pathOf(regions[j].position)
    requires worldPath !in RegionPaths(pathOf, regions)
    ensures var o := WorldWritten(world, regions, pathOf, worldPath, files, failing);
      o.succeeded ==>
        (forall i :: 0 <= i < |regions| ==>
           pathOf(regions[i].position) in o.files
           && o.files[pathOf(regions[i].position)] == FileContent.Stored(EncodeRegion(regions[i])))
        && o.world.containedRegions == AddAll(world.containedRegions, Positions(regions))
        && (regions != [] ==> o.world.numOfRegions == |o.world.containedRegions|)
        && worldPath in o.files && o.files[worldPath] == FileContent.Stored(EncodeWorld(o.world))
  {
    var o := RegionsWritten(world, regions, pathOf, files, failing);
    RegionsWrittenStored(world, regions, pathOf, files, failing);
    RegionsWrittenListed(world, regions, pathOf, files, failing);
    if o.succeeded {
      forall i | 0 <= i < |regions| ensures pathOf(regions[i].position) != worldPath {
        assert pathOf(regions[i].position) in RegionPaths(pathOf, regions);
      }
    }
  }

  /**
    A failed write has not touched the world file.
  */
  lemma WorldWrittenFailure(world: WorldInformation, regions: seq<RegionInformation>, pathOf: Vec2i -> string,
                            worldPath: string, files: FileStore, failing: set<string>)
    requires worldPath !in RegionPaths(pathOf, regions)
    ensures var o := WorldWritten(world, regions, pathOf, worldPath, files, failing);
      !o.succeeded ==>
        (worldPath in o.files <==> worldPath in files) && (worldPath in files ==> o.files[worldPath] == files[worldPath])
  {
    RegionsWrittenFrame(world, regions, pathOf, files, failing);
  }

  /** No region file of `regions` fails. */
  predicate NoRegionFileFails(regions: seq<RegionInformation>, pathOf: Vec2i -> string, failing: set<string>) {
    forall i :: 0 <= i < |regions| ==> pathOf(regions[i].position) !in failing
  }

  /** Valid regions can be written exactly when none of their files fails. */
  lemma ValidRegionsWritable(regions: seq<RegionInformation>, pathOf: Vec2i -> string, failing: set<string>)
    requires forall i :: 0 <= i < |regions| ==> regions[i].bValidInformation
    ensures (forall i :: 0 <= i < |regions| ==> Writable(regions[i], pathOf, failing))
      <==> NoRegionFileFails(regions, pathOf, failing)
  {
  }

  /**
    `SaveWorld` succeeds exactly when the world is valid and neither a region
    file nor the world file fails.
  */
  lemma SaveOutcomeSucceeds(world: WorldInformation, saves: seq<ChunkSave>, savedDir: string,
                            files: FileStore, failing: set<string>)
    ensures SaveOutcome(world, saves, savedDir, files, failing).succeeded
      <==> world.bValidInformation && GetWorldPath(savedDir, world.name) !in failing
           && NoRegionFileFails(Grouped(saves), RegionFiles(savedDir, world.name), failing)
  {
    if world.bValidInformation {
      var g, pathOf := Grouped(saves), RegionFiles(savedDir, world.name);
      GroupedRegions(saves);
      WorldWrittenSucceeds(world, g, pathOf, GetWorldPath(savedDir, world.name), files, failing);
      ValidRegionsWritable(g, pathOf, failing);
    }
  }

  /**
    After a successful `SaveWorld` every region of the grouped chunks is in
    its own file, the world's region set holds their positions, and the world
    file holds the updated world.
  */
  lemma SaveOutcomeStored(world: WorldInformation, saves: seq<ChunkSave>, savedDir: string,
                          files: FileStore, failing: set<string>)
    ensures var o, g, pathOf := SaveOutcome(world, saves, savedDir, files, failing), Grouped(saves), RegionFiles(savedDir, world.name);
      var worldPath := GetWorldPath(savedDir, world.name);
      o.succeeded ==>
        (forall i :: 0 <= i < |g| ==>
           pathOf(g[i].position) in o.files && o.files[pathOf(g[i].position)] == FileContent.Stored(EncodeRegion(g[i])))
        && o.world.containedRegions == AddAll(world.containedRegions, Positions(g))
        && (g != [] ==> o.world.numOfRegions == |o.world.containedRegions|)
        && worldPath in o.files && o.files[worldPath] == FileContent.Stored(EncodeWorld(o.world))
  {
    if world.bValidInformation {
      var g := Grouped(saves);
      GroupedRegions(saves);
      RegionFilesDistinct(savedDir, world.name, g);
      WorldWrittenStored(world, g, RegionFiles(savedDir, world.name), GetWorldPath(savedDir, world.name), files, failing);
    }
  }

  /**
    A failed `SaveWorld` has not touched the world file, and with an invalid
    world it has written nothing and changed nothing.
  */
  lemma SaveOutcomeFailure(world: WorldInformation, saves: seq<ChunkSave>, savedDir: string,
                           files: FileStore, failing: set<string>)
    ensures var o := SaveOutcome(world, saves, savedDir, files, failing);
      var worldPath := GetWorldPath(savedDir, world.name);
      (!world.bValidInformation ==> o == Outcome(false, world, files))
      && (!o.succeeded ==>
            (worldPath in o.files <==> worldPath in files)
            && (worldPath in files ==> o.files[worldPath] == files[worldPath]))
  {
    if world.bValidInformation {
      var g := Grouped(saves);
      GroupedRegions(saves);
      RegionFilesDistinct(savedDir, world.name, g);
      WorldWrittenFailure(world, g, RegionFiles(savedDir, world.name), GetWorldPath(savedDir, world.name), files, failing);
    }
  }

  // The chunks

  /** A chunk `GatherChunkInformation` can pack: `h / w` is a number of slabs, and no id is negative. */
  ghost predicate Packable(c: ChunkActor)
    reads c`chunkWidth, c`chunkHeight, c`voxelAssetIDs
  {
    c.chunkWidth != 0 && TruncDiv(c.chunkHeight, c.chunkWidth) != 0
    && (TruncDiv(c.chunkHeight, c.chunkWidth) > 0 ==> NonNegative(c.voxelAssetIDs))
  }

  /** The sub-chunks of a chunk. */
  ghost function Packed(c: ChunkActor): seq<ChunkInformation>
    reads c`chunkWidth, c`chunkHeight, c`voxelAssetIDs, c`chunkIndexX, c`chunkIndexY
    requires Packable(c)
  {
    Gathered(c.voxelAssetIDs, TruncDiv(c.chunkHeight, c.chunkWidth), c.chunkIndexX, c.chunkIndexY)
  }

  /** Every chunk marked for saving can be packed. */
  ghost predicate AllPackable(chunks: seq<ChunkActor>)
    reads chunks
  {
    forall i :: 0 <= i < |chunks| ==> chunks[i].markedForSaving ==> Packable(chunks[i])
  }

  /** The contributions of the chunks marked for saving, in chunk order. */
  ghost function Saves(chunks: seq<ChunkActor>): seq<ChunkSave>
    reads chunks
    requires AllPackable(chunks)
    decreases |chunks|
  {
    if chunks == [] then []
    else
      var last := chunks[|chunks| - 1];
      Saves(chunks[..|chunks| - 1])
        + (if last.markedForSaving then [ChunkSave(last.assignedRegion, Packed(last))] else [])
  }

  /** One more chunk: a marked one adds its contribution, an unmarked one nothing. */
  lemma SavesStep(chunks: seq<ChunkActor>, i: int)
    requires AllPackable(chunks) && 0 <= i < |chunks|
    ensures AllPackable(chunks[..i]) && AllPackable(chunks[..i + 1])
    ensures chunks[i].markedForSaving ==>
      Saves(chunks[..i + 1]) == Saves(chunks[..i]) + [ChunkSave(chunks[i].assignedRegion, Packed(chunks[i]))]
    ensures !chunks[i].markedForSaving ==> Saves(chunks[..i + 1]) == Saves(chunks[..i])
  {
    assert chunks[..i + 1][..i] == chunks[..i];
  }

  /** The region map after one more chunk's contribution. */
  lemma GroupedAppend(saves: seq<ChunkSave>, save: ChunkSave)
    ensures Grouped(saves + [save]) == AddSubChunks(Grouped(saves), save.region, save.subChunks)
  {
    assert (saves + [save])[..|saves|] == saves;
  }

  class SaveManager {
    var world: WorldInformation
    var chunkList: seq<ChunkActor>
    /** `FPaths::ProjectSavedDir()`. */
    var savedDir: string

    constructor (world: WorldInformation, chunks: seq<ChunkActor>, savedDir: string)
      ensures this.world == world && chunkList == chunks && this.savedDir == savedDir
    {
      this.world := world;
      chunkList := chunks;
      this.savedDir := savedDir;
    }

    /**
      `FSaveManager::GatherChunkInformation`: no sub-chunks for a null chunk,
      otherwise one per slab, in slab order, at `(chunkIndexX, chunkIndexY, s)`.
    */
    static method GatherChunkInformation(chunkActor: ChunkActor?) returns (chunk: seq<ChunkInformation>)
      requires chunkActor != null ==> Packable(chunkActor)
      ensures chunkActor == null ==> chunk == []
      ensures chunkActor != null ==> chunk == Packed(chunkActor)
      ensures chunkActor != null ==> |chunk| == if TruncDiv(chunkActor.chunkHeight, chunkActor.chunkWidth) > 0
        then TruncDiv(chunkActor.chunkHeight, chunkActor.chunkWidth) else 0
      ensures forall s :: 0 <= s < |chunk| ==>
        chunk[s].bValidInformation && chunk[s].position == Vec3i(chunkActor.chunkIndexX, chunkActor.chunkIndexY, s)
    {
      if chunkActor == null {
        return [];
      }
      var ids := chunkActor.voxelAssetIDs;
      var numOfVerticalSplits := TruncDiv(chunkActor.chunkHeight, chunkActor.chunkWidth);
      var numOfVoxel := TruncDiv(|ids|, numOfVerticalSplits);
      chunk := [];
      var s := 0;
      while s < numOfVerticalSplits
        invariant numOfVerticalSplits > 0 ==> 0 <= s <= numOfVerticalSplits
        invariant numOfVerticalSplits <= 0 ==> s == 0
        invariant |chunk| == s
        invariant forall j :: 0 <= j < s ==> chunk[j] == SubChunk(ids, numOfVerticalSplits, j, chunkActor.chunkIndexX, chunkActor.chunkIndexY)
      {
        var subChunk := GatherSlab(ids, numOfVerticalSplits, s, numOfVoxel, chunkActor.chunkIndexX, chunkActor.chunkIndexY);
        chunk := chunk + [subChunk];
        s := s + 1;
      }
    }

    /** The body of the slab loop of `GatherChunkInformation`: packs slab `s`. */
    static method GatherSlab(ids: seq<int>, k: int, s: int, numOfVoxel: int, x: int, y: int) returns (subChunk: ChunkInformation)
      requires k > 0 && 0 <= s < k && NonNegative(ids) && numOfVoxel == TruncDiv(|ids|, k)
      ensures subChunk == SubChunk(ids, k, s, x, y)
    {
      SlabBounds(|ids|, k, s);
      TruncOfNonNegative(|ids|, k);
      var lowerCap, upperCap := (|ids| * s) / k, (|ids| * (s + 1)) / k;
      assert lowerCap == SlabStart(|ids|, k, s) && upperCap == SlabStart(|ids|, k, s + 1);
      var containedVoxel, numOfVoxelValues := ReadSlab(ids, lowerCap, upperCap);
      var slab := ids[lowerCap..upperCap];
      assert slab == Slab(ids, k, s);
      var mode := FirstMax(numOfVoxelValues);
      var bCompressed := false;
      if 5 * mode.count > 2 * numOfVoxel {
        bCompressed := true;
        containedVoxel := ElideLeading(slab, mode);
      }
      subChunk := ChunkInformation(Vec3i(x, y, s), containedVoxel, |containedVoxel|, bCompressed, mode.id, true);
    }

    /** The cell loop of `GatherChunkInformation`: the cells `[lowerCap, upperCap)` re-keyed from 0, and their histogram. */
    static method ReadSlab(ids: seq<int>, lowerCap: int, upperCap: int)
      returns (containedVoxel: seq<Entry>, numOfVoxelValues: seq<int>)
      requires 0 <= lowerCap <= upperCap <= |ids| && NonNegative(ids)
      ensures NonNegative(ids[lowerCap..upperCap])
      ensures containedVoxel == Listed(ids[lowerCap..upperCap], 0)
      ensures numOfVoxelValues == Histogram(ids[lowerCap..upperCap])
    {
      containedVoxel := [];
      numOfVoxelValues := [];
      var i := lowerCap;
      while i < upperCap
        invariant lowerCap <= i <= upperCap
        invariant NonNegative(ids[lowerCap..i])
        invariant containedVoxel == Listed(ids[lowerCap..i], 0)
        invariant numOfVoxelValues == Histogram(ids[lowerCap..i])
      {
        var voxelValue := ids[i];
        PackStep(ids[lowerCap..i], voxelValue);
        assert ids[lowerCap..i + 1] == ids[lowerCap..i] + [voxelValue];
        containedVoxel := Add(containedVoxel, i - lowerCap, voxelValue);
        numOfVoxelValues := CountVoxel(numOfVoxelValues, voxelValue);
        i := i + 1;
      }
    }

    /** One cell counted: the histogram grows, zero-filled, to hold `voxelValue`, whose count goes up by one. */
    static method CountVoxel(numOfVoxelValues: seq<int>, voxelValue: int) returns (counted: seq<int>)
      requires voxelValue >= 0
      ensures counted == Tally(numOfVoxelValues, voxelValue)
    {
      counted := numOfVoxelValues;
      if |counted| <= voxelValue {
        counted := counted + seq(voxelValue + 1 - |counted|, _ => 0);
      }
      counted := counted[voxelValue := counted[voxelValue] + 1];
    }

    /** The elision loop: removes every key below the mode's count that holds the mode's id. */
    static method ElideLeading(slab: seq<int>, mode: Mode) returns (containedVoxel: seq<Entry>)
      requires NonNegative(slab) && mode == SlabMode(slab)
      ensures containedVoxel == Elided(slab, mode.id, mode.count)
    {
      containedVoxel := Listed(slab, 0);
      assert slab[..0] == [];
      var i := 0;
      while i < mode.count
        invariant 0 <= i <= mode.count
        invariant containedVoxel == Elided(slab, mode.id, i)
      {
        ElideFinds(slab, mode.id, i);
        ElideStep(slab, mode.id, i);
        if Get(containedVoxel, i) == mode.id {
          containedVoxel := Remove(containedVoxel, i);
        }
        i := i + 1;
      }
    }

    /**
      `FSaveManager::SaveWorld`: an invalid world fails at once; otherwise the
      marked chunks are grouped by region, the regions are written in order,
      and the world file last. `files` is the save directory before the run.
    */
    method SaveWorld(files: FileStore, failing: set<string>) returns (succeeded: bool, files': FileStore)
      requires AllPackable(chunkList)
      modifies this`world
      ensures Outcome(succeeded, world, files') == SaveOutcome(old(world), old(Saves(chunkList)), savedDir, files, failing)
    {
      if !world.bValidInformation {
        return false, files;
      }
      var regionMap := GroupRegions(chunkList);
      RegionsWrittenFrame(world, regionMap, RegionFiles(savedDir, world.name), files, failing);
      succeeded, files' := WriteRegions(regionMap, files, failing);
      if !succeeded {
        return;
      }
      succeeded, files' := WriteWorldToSave(GetWorldPath(savedDir, world.name), files', failing);
    }

    /** The grouping loop of `SaveWorld`. */
    static method GroupRegions(chunks: seq<ChunkActor>) returns (regionMap: seq<RegionInformation>)
      requires AllPackable(chunks)
      ensures regionMap == Grouped(Saves(chunks))
    {
      regionMap := [];
      var i := 0;
      while i < |chunks|
        invariant 0 <= i <= |chunks|
        invariant AllPackable(chunks[..i])
        invariant regionMap == Grouped(Saves(chunks[..i]))
      {
        var chunk := chunks[i];
        SavesStep(chunks, i);
        ghost var next := Grouped(Saves(chunks[..i + 1]));
        if chunk.markedForSaving {
          GroupedAppend(Saves(chunks[..i]), ChunkSave(chunk.assignedRegion, Packed(chunk)));
          regionMap := SaveChunk(regionMap, chunk);
        }
        assert regionMap == next;
        assert Grouped(Saves(chunks[..i + 1])) == next;
        i := i + 1;
      }
      assert chunks[..i] == chunks;
    }

    /** The body of the grouping loop for a marked chunk: packs it and adds its sub-chunks to its region. */
    static method SaveChunk(regionMap: seq<RegionInformation>, chunk: ChunkActor) returns (regionMap': seq<RegionInformation>)
      requires Packable(chunk)
      ensures regionMap' == AddSubChunks(regionMap, chunk.assignedRegion, Packed(chunk))
    {
      var subChunks := GatherChunkInformation(chunk);
      regionMap' := AddToRegion(regionMap, chunk.assignedRegion, subChunks);
    }

    /** One marked chunk: its region is created when missing, then its sub-chunks appended one by one. */
    static method AddToRegion(regionMap: seq<RegionInformation>, regionPosition: Vec2i, subChunks: seq<ChunkInformation>)
      returns (regionMap': seq<RegionInformation>)
      ensures regionMap' == AddSubChunks(regionMap, regionPosition, subChunks)
    {
      regionMap' := regionMap;
      var slot := RegionSlot(regionMap', regionPosition);
      if slot < 0 {
        regionMap' := regionMap' + [DefaultRegion.(bValidInformation := true, position := regionPosition)];
        slot := |regionMap'| - 1;
      }
      ghost var base := regionMap';
      ghost var before := regionMap'[slot];
      assert before.containedChunks + subChunks[..0] == before.containedChunks;
      var j := 0;
      while j < |subChunks|
        invariant 0 <= j <= |subChunks|
        invariant regionMap' == base[slot := before.(containedChunks := before.containedChunks + subChunks[..j])]
      {
        assert before.containedChunks + subChunks[..j + 1] == before.containedChunks + subChunks[..j] + [subChunks[j]];
        var region := regionMap'[slot];
        regionMap' := regionMap'[slot := region.(containedChunks := region.containedChunks + [subChunks[j]])];
        j := j + 1;
      }
      assert subChunks[..j] == subChunks;
      regionMap' := regionMap'[slot := regionMap'[slot].(numOfChunks := |regionMap'[slot].containedChunks|)];
      assert before.containedChunks + subChunks == if RegionSlot(regionMap, regionPosition) < 0 then subChunks
        else regionMap[slot].containedChunks + subChunks;
    }

    /** The region loop of `SaveWorld`: stops at the first region that cannot be written. */
    method WriteRegions(regionMap: seq<RegionInformation>, files: FileStore, failing: set<string>)
      returns (succeeded: bool, files': FileStore)
      modifies this`world
      ensures Outcome(succeeded, world, files') == RegionsWritten(old(world), regionMap, RegionFiles(savedDir, old(world).name), files, failing)
    {
      ghost var world0 := world;
      files' := files;
      var k := 0;
      while k < |regionMap|
        invariant 0 <= k <= |regionMap|
        invariant world.name == world0.name
        invariant Outcome(true, world, files') == RegionsWritten(world0, regionMap[..k], RegionFiles(savedDir, world0.name), files, failing)
      {
        assert regionMap[..k + 1][..k] == regionMap[..k];
        var position := regionMap[k].position;
        assert RegionFiles(savedDir, world0.name)(position) == GetRegionPath(savedDir, world.name, position);
        RegionWrittenSpec(Outcome(true, world, files'), regionMap[k], RegionFiles(savedDir, world0.name), failing);
        var written;
        written, files' := WriteRegionToSave(GetRegionPath(savedDir, world.name, position), regionMap[k], files', failing);
        if !written {
          RegionsWrittenStops(world0, regionMap, RegionFiles(savedDir, world0.name), files, failing, k + 1);
          return false, files';
        }
        var regions := SetAdd(world.containedRegions, position);
        world := world.(containedRegions := regions, numOfRegions := |regions|);
        k := k + 1;
      }
      assert regionMap[..k] == regionMap;
      succeeded := true;
    }

    /**
      `FSaveManager::WriteRegionToSave`: an invalid region has an empty
      archive and is not written; otherwise the archive is stored unless the
      compressor or the file write fails.
    */
    static method WriteRegionToSave(filePath: string, region: RegionInformation, files: FileStore, failing: set<string>)
      returns (succeeded: bool, files': FileStore)
      ensures succeeded <==> region.bValidInformation && filePath !in failing
      ensures files' == if succeeded then files[filePath := FileContent.Stored(EncodeRegion(region))] else files
    {
      var bufferArchive := ConvertRegionToBinary(region);
      EncodeRegionLength(region);
      if |bufferArchive| <= 0 {
        return false, files;
      }
      if filePath in failing {
        return false, files;
      }
      return true, files[filePath := FileContent.Stored(bufferArchive)];
    }

    /** `FSaveManager::WriteWorldToSave`: the same for the world header. */
    method WriteWorldToSave(filePath: string, files: FileStore, failing: set<string>)
      returns (succeeded: bool, files': FileStore)
      ensures succeeded <==> world.bValidInformation && filePath !in failing
      ensures files' == if succeeded then files[filePath := FileContent.Stored(EncodeWorld(world))] else files
    {
      var bufferArchive := ConvertWorldToBinary(world);
      EncodeWorldLength(world);
      if |bufferArchive| <= 0 {
        return false, files;
      }
      if filePath in failing {
        return false, files;
      }
      return true, files[filePath := FileContent.Stored(bufferArchive)];
    }
  }
}
