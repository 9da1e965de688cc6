/**
  The controller as it runs: maps updated around calls to a server that is updated in place. Each
  handler is proved to do what the functions of the controller say about both layers at once.
 */
module Drivers {
  import opened Options
  import opened Store
  import opened VolumeManagers
  import opened Servers
  import opened Controller

  class Driver {
    var storage: map<string, StoredVolume>
    var snapshots: map<string, StoredSnapshot>
    const server: Server
    const exporter: ExportManager

    ghost predicate Valid()
      reads this, server
    {
      server.Valid()
    }

    ghost function View(): System
      reads this, server, server.images.Values, server.volManager, exporter
    {
      System(storage, snapshots, server.View(), exporter.exports)
    }

    constructor ()
      ensures Valid() && View() == START
      ensures fresh(server) && fresh(server.volManager) && fresh(exporter) && server.images == map[]
    {
      storage, snapshots := map[], map[];
      server := new Server();
      exporter := new ExportManager();
    }

    /** The client stub: a call that does not arrive, or whose answer is lost, counts as failed. */
    method CallServer(c: Call, w: Conditions) returns (ok: bool)
      requires Valid()
      modifies server, server.images.Values, server.volManager
      ensures Valid() && fresh(server.images.Values - old(server.images.Values))
      ensures server.View() == Arrived(w.call, old(server.View()), Step(old(server.View()), c, w.world))
      ensures ok == Answered(w.call, Step(old(server.View()), c, w.world).reply)
    {
      if w.call == RequestLost {
        return false;
      }
      var reply;
      match c {
        case NewVolume(id, source) => reply := server.CreateVolume(id, source, w.world);
        case NewSnapshot(id, source) => reply := server.CreateSnapshot(id, source, w.world);
        case DropVolume(id) => reply := server.DeleteVolume(id, w.world);
        case DropSnapshot(id, source) => reply := server.DeleteSnapshot(id, source, w.world);
      }
      ok := w.call == Delivered && reply == Ok;
    }

    /** ExposeVhostUser of the server: the record, the socket's directory, then the daemon. */
    method CallExpose(id: string, w: Conditions) returns (ok: bool)
      requires Valid()
      modifies exporter
      ensures var e := Expose(old(exporter.exports), server.View(), id, w.world);
              && exporter.exports == Exported(w.exporter, old(exporter.exports), e)
              && ok == Answered(w.exporter, e.reply)
    {
      assert server.View().images.Keys == server.images.Keys;
      ok := false;
      if w.exporter != RequestLost && id in server.images && !w.world.socket {
        var q := server.images[id].qsdId;
        ok := exporter.ExposeVhostUser(q, q in server.volManager.nodes, w.world);
        ok := ok && w.exporter == Delivered;
      }
    }

    /** DeleteExporter of the server: the record, the daemon, then the socket's directory. */
    method CallUnexpose(id: string, w: Conditions) returns (ok: bool)
      requires Valid()
      modifies exporter
      ensures var e := Unexpose(old(exporter.exports), server.View(), id, w.world);
              && exporter.exports == Exported(w.exporter, old(exporter.exports), e)
              && ok == Answered(w.exporter, e.reply)
    {
      assert server.View().images.Keys == server.images.Keys;
      ok := false;
      if w.exporter != RequestLost && id in server.images {
        ok := exporter.DeleteExporter(server.images[id].qsdId, w.world);
        ok := ok && !w.world.socket && w.exporter == Delivered;
      }
    }

    method CreateVolume(name: string, capacity: Option<int>, content: ContentSource, w: Conditions)
      returns (response: Response)
      requires Valid()
      modifies this, server, server.images.Values, server.volManager, exporter
      ensures Valid() && fresh(server.images.Values - old(server.images.Values))
      ensures Outcome(View(), response) == Serve(old(View()), CreateVolumeRequest(name, capacity, content), w)
    {
      if name == "" {
        return InvalidArgument;
      }
      if capacity == None {
        return Crashed;
      }
      if EmptyContent(content) {
        return InvalidArgument;
      }
      var size := capacity.value;
      if name !in storage {
        storage := storage[name := StoredVolume(name, size)];
      }
      if w.dial {
        return Internal;
      }
      var ok := CallForVolume(name, ContentId(content), w);
      response := if ok then Success(size) else Internal;
    }

    /** The two server calls of CreateVolume: the image, then its exporter. */
    method CallForVolume(name: string, source: string, w: Conditions) returns (ok: bool)
      requires Valid()
      modifies server, server.images.Values, server.volManager, exporter
      ensures Valid() && fresh(server.images.Values - old(server.images.Values))
      ensures var r := Step(old(server.View()), NewVolume(name, source), w.world);
              var e := Expose(old(exporter.exports), server.View(), name, w.world);
              && server.View() == Arrived(w.call, old(server.View()), r)
              && (if Answered(w.call, r.reply)
                  then && exporter.exports == Exported(w.exporter, old(exporter.exports), e)
                       && ok == Answered(w.exporter, e.reply)
                  else exporter.exports == old(exporter.exports) && !ok)
    {
      ok := CallServer(NewVolume(name, source), w);
      if ok {
        ok := CallExpose(name, w);
      }
    }

    method DeleteVolume(id: string, w: Conditions) returns (response: Response)
      requires Valid()
      modifies this, server, server.images.Values, server.volManager, exporter
      ensures Valid() && fresh(server.images.Values - old(server.images.Values))
      ensures Outcome(View(), response) == Serve(old(View()), DeleteVolumeRequest(id), w)
    {
      if id == "" {
        return InvalidArgument;
      }
      if id !in storage {
        return Success(0);
      }
      if w.dial {
        return Internal;
      }
      var ok := CallForDeletion(storage[id].id, w);
      if !ok {
        return Internal;
      }
      ghost var v := server.View();
      storage := storage - {id};
      assert server.View() == v;
      return Success(0);
    }

    /** The two server calls of DeleteVolume: the exporter goes first. */
    method CallForDeletion(id: string, w: Conditions) returns (ok: bool)
      requires Valid()
      modifies server, server.images.Values, server.volManager, exporter
      ensures Valid() && fresh(server.images.Values - old(server.images.Values))
      ensures var r := Step(old(server.View()), DropVolume(id), w.world);
              var e := Unexpose(old(exporter.exports), old(server.View()), id, w.world);
              && exporter.exports == Exported(w.exporter, old(exporter.exports), e)
              && (if Answered(w.exporter, e.reply)
                  then server.View() == Arrived(w.call, old(server.View()), r) && ok == Answered(w.call, r.reply)
                  else server.View() == old(server.View()) && !ok)
    {
      ok := CallUnexpose(id, w);
      if ok {
        ok := CallServer(DropVolume(id), w);
      }
    }

    method CreateSnapshot(name: string, source: string, w: Conditions) returns (response: Response)
      requires Valid()
      modifies this, server, server.images.Values, server.volManager
      ensures Valid() && fresh(server.images.Values - old(server.images.Values))
      ensures Outcome(View(), response) == Serve(old(View()), CreateSnapshotRequest(name, source), w)
    {
      if name == "" || source == "" {
        return InvalidArgument;
      }
      if name in snapshots {
        return Success(snapshots[name].size);
      }
      if source !in storage || w.dial {
        return Internal;
      }
      var s := StoredSnapshot(name, source, storage[source].size);
      var ok := CallForSnapshot(name, s, w);
      response := if ok then Success(s.size) else Internal;
    }

    /** The server call of CreateSnapshot, and the entry that remembers its success. */
    method CallForSnapshot(name: string, s: StoredSnapshot, w: Conditions) returns (ok: bool)
      requires Valid()
      modifies this`snapshots, server, server.images.Values, server.volManager
      ensures Valid() && fresh(server.images.Values - old(server.images.Values))
      ensures var r := Step(old(server.View()), NewSnapshot(name, s.source), w.world);
              && server.View() == Arrived(w.call, old(server.View()), r)
              && ok == Answered(w.call, r.reply)
              && snapshots == if ok then old(snapshots)[name := s] else old(snapshots)
    {
      ok := CallServer(NewSnapshot(name, s.source), w);
      if ok {
        ghost var v := server.View();
        snapshots := snapshots[name := s];
        assert server.View() == v;
      }
    }

    method DeleteSnapshot(id: string, w: Conditions) returns (response: Response)
      requires Valid()
      modifies this, server, server.images.Values, server.volManager
      ensures Valid() && fresh(server.images.Values - old(server.images.Values))
      ensures Outcome(View(), response) == Serve(old(View()), DeleteSnapshotRequest(id), w)
    {
      if id !in snapshots {
        return Success(0);
      }
      if w.dial {
        return Internal;
      }
      var ok := CallServer(DropSnapshot(id, snapshots[id].source), w);
      if !ok {
        return Internal;
      }
      ghost var v := server.View();
      snapshots := snapshots - {id};
      assert server.View() == v;
      return Success(0);
    }
  }
}
