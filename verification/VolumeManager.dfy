/** The client of the storage daemon, issuing its commands one by one. */
module VolumeManagers {
  import opened Options
  import opened BlockGraph

  /** The client together with what it acts on: the daemon's nodes and the image files. */
  class VolumeManager {
    var nodes: map<string, Node>
    var files: map<string, Data>

    ghost function View(): Daemon
      reads this
    {
      Daemon(nodes, files)
    }

    constructor ()
      ensures View() == Daemon(map[], map[])
    {
      nodes, files := map[], map[];
    }

    method ExecuteCommand(c: Command, f: Faults) returns (ok: bool)
      modifies this
      ensures Answer(View(), ok) == Execute(old(View()), c, f)
    {
      var d := Daemon(nodes, files);
      ok := Accepts(d, c) && !Refused(f, c);
      if ok {
        d := Apply(d, c);
        nodes, files := d.nodes, d.files;
      }
    }

    /** qemu-img create -b */
    method CreateOverlay(image: string, file: string, f: Faults) returns (ok: bool)
      modifies this
      ensures Answer(View(), ok) == CreateOverlayFile(old(View()), image, file, f)
    {
      ok := !f.qemuImg && image in files;
      if ok {
        files := files[file := map[]];
      }
    }

    method CreateVolume(image: string, id: string, f: Faults) returns (ok: bool)
      modifies this
      ensures Answer(View(), ok) == CreateDisk(old(View()), image, id, f)
    {
      if image !in files {
        if f.qemuImg {
          return false;
        }
        files := files[image := map[]];
      }
      ok := ExecuteCommand(BlockdevAdd(id, image, None), f);
    }

    method CreateSnapshotWithBackingNode(
      imageId: string, snapshotId: string, image: string, snapshot: string, f: Faults)
      returns (ok: bool)
      modifies this
      ensures Answer(View(), ok) == CreateWithBackingNode(old(View()), imageId, snapshotId, image, snapshot, f)
    {
      ok := CreateOverlay(image, snapshot, f);
      if ok {
        ok := ExecuteCommand(BlockdevAdd(snapshotId, snapshot, Some(imageId)), f);
      }
    }

    method CreateSnapshot(imageId: string, snapshotId: string, image: string, snapshot: string, f: Faults)
      returns (ok: bool)
      modifies this
      ensures Answer(View(), ok) == CreateAndInstall(old(View()), imageId, snapshotId, image, snapshot, f)
    {
      ok := CreateOverlay(image, snapshot, f);
      if !ok {
        return;
      }
      ghost var start := View();
      var cmds := [BlockdevAdd(snapshotId, snapshot, None), BlockdevSnapshot(imageId, snapshotId)];
      var i := 0;
      while i < |cmds|
        invariant 0 <= i <= |cmds| && ok
        invariant ExecuteAll(start, cmds, f) == ExecuteAll(View(), cmds[i..], f)
      {
        ok := ExecuteCommand(cmds[i], f);
        if !ok {
          return;
        }
        assert cmds[i..][1..] == cmds[i + 1..];
        i := i + 1;
      }
    }

    method DeleteVolume(id: string, f: Faults) returns (ok: bool)
      modifies this
      ensures Answer(View(), ok) == DeleteNode(old(View()), id, f)
    {
      ok := ExecuteCommand(BlockdevDel(id), f);
    }

    /** Removing an image file from its directory fails when it is not there or the host refuses. */
    method RemoveFile(file: string, f: Faults) returns (ok: bool)
      modifies this
      ensures ok <==> file in old(files) && file !in f.unlink
      ensures View() == if ok then Daemon(old(nodes), old(files) - {file}) else old(View())
    {
      ok := file in files && file !in f.unlink;
      if ok {
        files := files - {file};
      }
    }
  }

  /** The daemon's exports, each named after its node. */
  class ExportManager {
    var exports: set<string>

    constructor ()
      ensures exports == {}
    {
      exports := {};
    }

    method ExposeVhostUser(node: string, found: bool, f: Faults) returns (ok: bool)
      modifies this
      ensures ok == (!f.vhost && node !in old(exports) && found)
      ensures exports == old(exports) + (if ok then {node} else {})
    {
      ok := !f.vhost && node !in exports && found;
      if ok {
        exports := exports + {node};
      }
    }

    method DeleteExporter(node: string, f: Faults) returns (ok: bool)
      modifies this
      ensures ok == (!f.vhost && node in old(exports))
      ensures exports == old(exports) - (if ok then {node} else {})
    {
      ok := !f.vhost && node in exports;
      if ok {
        exports := exports - {node};
      }
    }
  }
}
