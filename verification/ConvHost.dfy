/** A namespace from its creation on: the instances set up for a size, and a host that writes within
    the exported range for as long as it likes. */
module ConvHost {
  import opened Collections
  import opened Wrappers
  import opened Geometry
  import Radix
  import opened FtlInstance
  import opened ConvNamespace

  /** A write command: the pages from `first` to `last`, whether the write buffer has room for it, and
      what the host sends. */
  datatype Command = Command(first: nat, last: nat, bufferOk: bool, data: seq<int>)

  /** The command names pages of a range of `host` pages only. */
  predicate Within(cmd: Command, host: nat) {
    cmd.first <= cmd.last < host && |cmd.data| == cmd.last - cmd.first + 1
  }

  /** What the instances store after the commands. */
  ghost function Served(maps: seq<map<nat, int>>, cmds: seq<Command>): (r: seq<map<nat, int>>)
    requires |maps| > 0
    ensures |r| == |maps|
  {
    if cmds == [] then maps
    else
      var m, c := Served(maps, cmds[..|cmds| - 1]), cmds[|cmds| - 1];
      if c.bufferOk then StoreAll(m, c.first, c.data) else m
  }

  /** The data last sent for a page by a command that was let in. */
  function LastSent(cmds: seq<Command>, lpn: nat): Option<int> {
    if cmds == [] then None
    else
      var c := cmds[|cmds| - 1];
      if c.bufferOk && c.first <= lpn < c.first + |c.data| then Some(c.data[lpn - c.first])
      else LastSent(cmds[..|cmds| - 1], lpn)
  }

  /** A page of the namespace holds what was last sent for it, and what it held before if nothing
      was. */
  lemma {:induction false} ServedLookup(maps: seq<map<nat, int>>, cmds: seq<Command>, lpn: nat)
    requires |maps| > 0
    ensures Lookup(Served(maps, cmds), lpn) ==
            if LastSent(cmds, lpn).Some? then LastSent(cmds, lpn) else Lookup(maps, lpn)
  {
    hide Lookup, StoreAll;
    if cmds != [] {
      var m, c := Served(maps, cmds[..|cmds| - 1]), cmds[|cmds| - 1];
      ServedLookup(maps, cmds[..|cmds| - 1], lpn);
      if c.bufferOk { StoreAllLookup(m, c.first, c.data, lpn); }
    }
  }

  /** Every instance stores pages of the exported range only. */
  ghost predicate Exported(maps: seq<map<nat, int>>, most: nat) {
    forall i :: 0 <= i < |maps| ==> maps[i].Keys <= Below(most)
  }

  /** A namespace of the given size: the parameters of every instance, and how many pages each is ever
      made to keep. */
  ghost predicate Namespace(ftls: seq<ConvFtl>, c: NandConfig, size: nat, parts: nat) {
    && Geometry.ConfigOk(c, size, parts) && |ftls| == parts
    && forall i :: 0 <= i < |ftls| ==>
         ftls[i].g == SsdInitParams(c, size, parts) && ftls[i].capacity == ExportedPages(size, c.pageBytes, parts)
  }

  /** The sizes for which the export leaves the collector its spare lines, within the 32 bits of a
      page count. */
  predicate SizeOk(c: NandConfig, size: nat, parts: nat) {
    && Geometry.ConfigOk(c, size, parts)
    && var g := SsdInitParams(c, size, parts);
       g.pgsPerLine < 0x8000_0000 && (g.ttLines >= 91 || (g.ttLines >= 62 && g.pgsPerLine >= 35))
  }

  lemma WrittenWithin(maps: seq<map<nat, int>>, cmd: Command, size: nat, pageBytes: nat, i: nat)
    requires i < |maps| && pageBytes > 0 && Within(cmd, DivRoundUp(ExportedBytes(size), pageBytes))
    requires Exported(maps, ExportedPages(size, pageBytes, |maps|))
    ensures |maps[i].Keys + LocalPages(cmd.first, cmd.last, |maps|, i)| <= ExportedPages(size, pageBytes, |maps|)
    ensures StoreAll(maps, cmd.first, cmd.data)[i].Keys <= Below(ExportedPages(size, pageBytes, |maps|))
  {
    WithinExport(maps[i].Keys, cmd.first, cmd.last, size, pageBytes, |maps|, i);
    StoreAllWithin(maps, cmd.first, cmd.data, cmd.last, i);
  }

  /** The exported pages have entries in the mapping tables. */
  lemma ExportInTable(c: NandConfig, size: nat, parts: nat, last: nat)
    requires SizeOk(c, size, parts) && last < DivRoundUp(ExportedBytes(size), c.pageBytes)
    ensures last / parts < SsdInitParams(c, size, parts).ttPgs
  {
    hide GeometryOk;
    var g := SsdInitParams(c, size, parts);
    LocalBelow(last, DivRoundUp(ExportedBytes(size), c.pageBytes), parts);
    ExportFits(c, size, parts);
    InitParamsGeometry(c, size, parts);
    LineTotal(g);
  }

  lemma LineTotal(g: SsdParams)
    requires GeometryOk(g) && g.ttLines >= 4
    ensures (g.ttLines - 4) * g.pgsPerLine <= g.ttPgs
  {
    LineSize(g);
    Radix.MulMono(g.ttLines - 4, g.ttLines, g.pgsPerLine);
  }

  /** One command of a host that stays within the exported range: it is refused only by the write
      buffer. */
  method ServeOne(ftls: seq<ConvFtl>, cmd: Command, c: NandConfig, size: nat, parts: nat, ghost objs: set<object>,
                  ghost maps: seq<map<nat, int>>) returns (ok: bool)
    requires Namespace(ftls, c, size, parts) && SizeOk(c, size, parts) && Holds(ftls, objs, maps)
    requires Exported(maps, ExportedPages(size, c.pageBytes, parts))
             && Within(cmd, DivRoundUp(ExportedBytes(size), c.pageBytes))
    modifies objs
    ensures ok == cmd.bufferOk && Holds(ftls, objs, if ok then StoreAll(maps, cmd.first, cmd.data) else maps)
    ensures Exported(if ok then StoreAll(maps, cmd.first, cmd.data) else maps, ExportedPages(size, c.pageBytes, parts))
  {
    hide Keeps, Separate, LocalPages, StoreAll, SizeOk, SsdInitParams;
    PartsPositive(c, size, parts);
    ExportInTable(c, size, parts, cmd.last);
    forall i | 0 <= i < |maps|
      ensures |maps[i].Keys + LocalPages(cmd.first, cmd.last, |ftls|, i)| <= ftls[i].capacity
      ensures StoreAll(maps, cmd.first, cmd.data)[i].Keys <= Below(ExportedPages(size, c.pageBytes, parts))
    {
      WrittenWithin(maps, cmd, size, c.pageBytes, i);
    }
    ok := ConvWrite(ftls, cmd.first, cmd.last, cmd.bufferOk, objs, maps, cmd.data);
  }

  lemma PartsPositive(c: NandConfig, size: nat, parts: nat)
    requires Geometry.ConfigOk(c, size, parts)
    ensures parts > 0 && c.pageBytes > 0
  {
  }

  /** conv_init_namespace: fresh instances that store nothing. */
  method InitNamespace(c: NandConfig, size: nat, parts: nat) returns (ftls: seq<ConvFtl>, ghost objs: set<object>)
    requires SizeOk(c, size, parts)
    ensures fresh(objs) && Namespace(ftls, c, size, parts) && Holds(ftls, objs, seq(parts, i => map[]))
  {
    hide Keeps, SsdInitParams, ExportedPages;
    PartsPositive(c, size, parts);
    Buildable(c, size, parts);
    var g := SsdInitParams(c, size, parts);
    ghost var most := ExportedPages(size, c.pageBytes, parts);
    ftls, objs := [], {};
    while |ftls| < parts
      invariant |ftls| <= parts && fresh(objs) && Separate(ftls, objs)
      invariant forall i :: 0 <= i < |ftls| ==> ftls[i].g == g && ftls[i].capacity == most && Keeps(ftls[i], map[])
    {
      var f := NewInstance(g, most);
      ftls, objs := ftls + [f], objs + Footprint(f);
    }
  }

  method NewInstance(g: SsdParams, ghost capacity: nat) returns (f: ConvFtl)
    requires GeometryOk(g) && capacity <= (g.ttLines - 4) * g.pgsPerLine
    requires g.pgsPerLine < 0x8000_0000 && 4 < g.ttLines
    ensures fresh(Footprint(f)) && Keeps(f, map[]) && f.g == g && f.capacity == capacity
  {
    hide ConvFtl.Valid, ConvFtl.Stored, ConvFtl.View, Initial, GeometryOk;
    f := new ConvFtl(g, capacity);
  }

  lemma Buildable(c: NandConfig, size: nat, parts: nat)
    requires SizeOk(c, size, parts)
    ensures var g := SsdInitParams(c, size, parts);
            && GeometryOk(g) && g.pgsPerLine < 0x8000_0000 && 4 < g.ttLines
            && ExportedPages(size, c.pageBytes, parts) <= (g.ttLines - 4) * g.pgsPerLine
  {
    hide GeometryOk;
    ExportFits(c, size, parts);
    InitParamsGeometry(c, size, parts);
  }

  /** A new namespace and any run of write commands within the exported range: each is served unless
      the write buffer has no room for it, and in the end every page holds what was last sent for it
      (`ServedLookup`). No instance ever lacks a free line. */
  method ServeHost(c: NandConfig, size: nat, parts: nat, cmds: seq<Command>)
    returns (ftls: seq<ConvFtl>, ok: seq<bool>, ghost objs: set<object>)
    requires SizeOk(c, size, parts)
    requires forall j :: 0 <= j < |cmds| ==> Within(cmds[j], DivRoundUp(ExportedBytes(size), c.pageBytes))
    ensures fresh(objs) && |ftls| == parts > 0 && |ok| == |cmds|
    ensures Holds(ftls, objs, Served(seq(parts, i => map[]), cmds))
    ensures forall j :: 0 <= j < |cmds| ==> ok[j] == cmds[j].bufferOk
  {
    hide Holds, SizeOk, Within, SsdInitParams, ExportedPages, StoreAll;
    SizePositive(c, size, parts);
    ftls, objs := InitNamespace(c, size, parts);
    ok := [];
    ghost var none: seq<map<nat, int>> := seq(parts, i => map[]);
    ghost var most := ExportedPages(size, c.pageBytes, parts);
    while |ok| < |cmds|
      invariant |ok| <= |cmds| && fresh(objs) && Namespace(ftls, c, size, parts)
      invariant Holds(ftls, objs, Served(none, cmds[..|ok|])) && Exported(Served(none, cmds[..|ok|]), most)
      invariant forall j :: 0 <= j < |ok| ==> ok[j] == cmds[j].bufferOk
    {
      var i := |ok|;
      assert cmds[..i + 1][..i] == cmds[..i];
      var served := ServeOne(ftls, cmds[i], c, size, parts, objs, Served(none, cmds[..i]));
      ok := ok + [served];
    }
    assert cmds[..|cmds|] == cmds;
  }

  lemma SizePositive(c: NandConfig, size: nat, parts: nat)
    requires SizeOk(c, size, parts)
    ensures Geometry.ConfigOk(c, size, parts) && parts > 0 && c.pageBytes > 0
  {
  }
}
