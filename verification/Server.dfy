/**
  The server as it runs: records shared through references and updated in place. Every method is
  proved to do what the functions of the store say, so all that is proved about those holds of it.
 */
module Servers {
  import opened Options
  import opened Names
  import opened Forest
  import opened BlockGraph
  import opened Listing
  import opened VolumeManagers
  import Store
  import opened StoreTypes = Store

  class QCOWImage {
    var qsdId: string
    var backing: string
    var file: string
    var refCount: int
    var volumeRef: string
    var depth: int

    /** The ID the record is kept under. */
    ghost const id: string

    constructor (ghost id: string, qsdId: string, backing: string, file: string, volumeRef: string, depth: int)
      ensures this.id == id && Value() == Image(qsdId, backing, file, 0, volumeRef, depth)
    {
      this.id := id;
      this.qsdId, this.backing, this.file := qsdId, backing, file;
      this.refCount, this.volumeRef, this.depth := 0, volumeRef, depth;
    }

    ghost function Value(): Image
      reads this
    {
      Image(qsdId, backing, file, refCount, volumeRef, depth)
    }
  }

  class Server {
    var images: map<string, QCOWImage>
    var activeLayers: map<string, string>
    const volManager: VolumeManager

    /** Every record is kept under its own ID, so no two IDs share one. */
    ghost predicate Valid()
      reads this`images
    {
      forall k | k in images :: images[k].id == k
    }

    ghost function Records(): Images
      reads this`images, images.Values
    {
      map k | k in images :: images[k].Value()
    }

    ghost function View(): State
      reads this, images.Values, volManager
    {
      State(Records(), activeLayers, volManager.View())
    }

    constructor ()
      ensures Valid() && View() == EMPTY
      ensures fresh(volManager) && images == map[]
    {
      images, activeLayers := map[], map[];
      volManager := new VolumeManager();
      new;
      assert Records() == map[];
    }

    /** One more image builds on a recorded one, which is updated through its reference. */
    method AddChild(id: string)
      requires Valid() && id in images
      modifies images[id]
      ensures Records() == AddReference(old(Records()), id)
    {
      var b := images[id];
      b.refCount := Int32(b.refCount + 1);
      SameImages(Records(), AddReference(old(Records()), id));
    }

    method DropChild(id: string)
      requires Valid() && id in images
      modifies images[id]
      ensures Records() == DropReference(old(Records()), id)
    {
      var b := images[id];
      b.refCount := Int32(b.refCount - 1);
      SameImages(Records(), DropReference(old(Records()), id));
    }

    method Put(id: string, image: QCOWImage)
      requires Valid() && image.id == id
      modifies this`images
      ensures Valid() && images == old(images)[id := image]
      ensures images.Values <= old(images.Values) + {image}
      ensures Records() == old(Records())[id := image.Value()]
    {
      images := images[id := image];
    }

    /** A new volume is recorded and becomes its own active layer. */
    method Enter(id: string, image: QCOWImage)
      requires Valid() && image.id == id
      modifies this
      ensures Valid() && images.Values <= old(images.Values) + {image}
      ensures Records() == old(Records())[id := image.Value()]
      ensures activeLayers == old(activeLayers)[id := id]
    {
      Put(id, image);
      activeLayers := activeLayers[id := id];
    }

    method Forget(id: string)
      requires Valid()
      modifies this`images
      ensures Valid() && images == old(images) - {id}
      ensures images.Values <= old(images.Values)
      ensures Records() == old(Records()) - {id}
    {
      images := images - {id};
    }

    method CreateVolume(id: string, source: string, f: Faults) returns (reply: Reply)
      requires Valid()
      modifies this, images.Values, volManager
      ensures Valid() && fresh(images.Values - old(images.Values))
      ensures Result(View(), reply) == Store.CreateVolume(old(View()), id, source, f)
    {
      if f.mkdir {
        return Failed(NoDirectory);
      }
      if !QsdIdDefined(id) {
        return Panicked;
      }
      if source == "" {
        reply := CreateEmpty(id, f);
      } else if source !in images {
        reply := Failed(ImageNotFound);
      } else {
        reply := CreateFrom(id, source, f);
      }
    }

    /** The part of CreateVolume for an empty disk. */
    method CreateEmpty(id: string, f: Faults) returns (reply: Reply)
      requires Valid() && !f.mkdir && QsdIdDefined(id)
      modifies this, volManager
      ensures Valid() && fresh(images.Values - old(images.Values))
      ensures Result(View(), reply) == Store.CreateVolume(old(View()), id, "", f)
    {
      ghost var s := View();
      var image := new QCOWImage(id, GenerateQsdId(id), "", VolumePath(id), id, 0);
      var ok := volManager.CreateVolume(image.file, image.qsdId, f);
      ghost var d := volManager.View();
      assert Records() == s.images;
      if !ok {
        return Failed(BackendRefused);
      }
      Enter(id, image);
      assert volManager.View() == d;
      return Ok;
    }

    /** The part of CreateVolume for a clone. */
    method CreateFrom(id: string, source: string, f: Faults) returns (reply: Reply)
      requires Valid() && !f.mkdir && QsdIdDefined(id) && source != "" && source in images
      modifies this, images[source], volManager
      ensures Valid() && fresh(images.Values - old(images.Values))
      ensures Result(View(), reply) == Store.CreateVolume(old(View()), id, source, f)
    {
      ghost var s := View();
      var b := images[source];
      var ok := volManager.CreateSnapshotWithBackingNode(b.qsdId, GenerateQsdId(id), b.file, VolumePath(id), f);
      assert View() == s.(daemon := volManager.View());
      if !ok {
        return Failed(BackendRefused);
      }
      AddLayer(id, source, VolumePath(id), id);
      return Ok;
    }

    /** A new record goes on top of its backing image, whose count goes up, and becomes a volume's active layer. */
    method AddLayer(id: string, backing: string, file: string, volume: string)
      requires Valid() && QsdIdDefined(id) && backing in images
      modifies this, images[backing]
      ensures Valid() && fresh(images.Values - old(images.Values))
      ensures View() ==
              old(Record(View(), id, NewLayer(Records(), id, backing, file), volume, volManager.View()))
    {
      StackRecord(id, backing, file);
      activeLayers := activeLayers[volume := id];
    }

    method StackRecord(id: string, backing: string, file: string)
      requires Valid() && QsdIdDefined(id) && backing in images
      modifies this`images, images[backing]
      ensures Valid() && fresh(images.Values - old(images.Values))
      ensures Records() == Insert(old(Records()), id, NewLayer(old(Records()), id, backing, file))
    {
      ghost var m := Records();
      var image := new QCOWImage(id, GenerateQsdId(id), backing, file, id, Uint32(images[backing].depth + 1));
      assert Records() == m;
      AddChild(backing);
      assert Records() == AddReference(m, backing);
      Put(id, image);
    }

    method CreateSnapshot(id: string, source: string, f: Faults) returns (reply: Reply)
      requires Valid()
      modifies this, images.Values, volManager
      ensures Valid() && fresh(images.Values - old(images.Values))
      ensures Result(View(), reply) == Store.CreateSnapshot(old(View()), id, source, f)
    {
      if source !in activeLayers {
        return Failed(ActiveLayerNotFound);
      }
      if activeLayers[source] !in images {
        return Failed(ImageNotFound);
      }
      if f.stat {
        return Failed(NoDirectory);
      }
      if !QsdIdDefined(id) {
        return Panicked;
      }
      reply := SnapshotLayer(id, source, f);
    }

    /** The part of CreateSnapshot after its checks. */
    method SnapshotLayer(id: string, source: string, f: Faults) returns (reply: Reply)
      requires Valid() && !f.stat && QsdIdDefined(id) && source in activeLayers && activeLayers[source] in images
      modifies this, images[activeLayers[source]], volManager
      ensures Valid() && fresh(images.Values - old(images.Values))
      ensures Result(View(), reply) == Store.CreateSnapshot(old(View()), id, source, f)
    {
      ghost var s := View();
      var layer := activeLayers[source];
      var file := SnapshotPath(source, GenerateQsdId(id));
      var ok := SnapshotNode(images[layer], GenerateQsdId(id), file, f);
      assert View() == s.(daemon := volManager.View());
      if !ok {
        return Failed(BackendRefused);
      }
      AddLayer(id, layer, file, source);
      return Ok;
    }

    /** The part of CreateSnapshot that picks the commands by the reference count. */
    method SnapshotNode(i: QCOWImage, qsdId: string, file: string, f: Faults) returns (ok: bool)
      modifies volManager
      ensures Answer(volManager.View(), ok) ==
              if i.refCount < 1
              then CreateAndInstall(old(volManager.View()), i.qsdId, qsdId, i.file, file, f)
              else CreateWithBackingNode(old(volManager.View()), i.qsdId, qsdId, i.file, file, f)
    {
      if i.refCount < 1 {
        ok := volManager.CreateSnapshot(i.qsdId, qsdId, i.file, file, f);
      } else {
        ok := volManager.CreateSnapshotWithBackingNode(i.qsdId, qsdId, i.file, file, f);
      }
    }

    method DeleteImage(id: string, f: Faults) returns (reply: Reply)
      requires Valid()
      modifies this`images, images.Values, volManager
      ensures Valid() && images.Values <= old(images.Values)
      ensures Result(View(), reply) == Store.DeleteImage(old(View()), id, f)
      ensures reply == Ok ==> id in old(images) && images.Keys == old(images.Keys) - {id}
      ensures reply == Ok ==> old(images)[id].backing == old(images[id].backing)
    {
      if id !in images {
        return Failed(ImageNotFound);
      }
      var i := images[id];
      var ok := volManager.DeleteVolume(i.qsdId, f);
      assert Records() == old(Records());
      if !ok {
        return Failed(BackendRefused);
      }
      ok := volManager.RemoveFile(i.file, f);
      assert Records() == old(Records());
      if !ok {
        return Failed(FileNotRemoved);
      }
      if i.backing != "" && i.backing !in images {
        return Failed(BackingImageNotFound);
      }
      RemoveRecord(id);
      return Ok;
    }

    /** The count of the backing image goes down, then the record goes. */
    method RemoveRecord(id: string)
      requires Valid() && id in images && (images[id].backing != "" ==> images[id].backing in images)
      modifies this`images, images.Values
      ensures Valid() && images == old(images) - {id} && images.Values <= old(images.Values)
      ensures Records() == Remove(old(Records()), id)
      ensures old(images)[id].backing == old(images[id].backing)
    {
      if images[id].backing != "" {
        DropChild(images[id].backing);
      }
      Forget(id);
    }

    method DeleteNodeWithZeroReference(id: string, f: Faults) returns (reply: Reply)
      requires Valid()
      modifies this`images, images.Values, volManager
      ensures Valid() && images.Values <= old(images.Values)
      ensures Result(View(), reply) == Store.CleanUp(old(View()), id, f)
      decreases |images.Keys|
    {
      if id !in images {
        return Ok;
      }
      var i := images[id];
      if i.refCount > 0 || i.volumeRef != "" {
        return Ok;
      }
      reply := DeleteImage(id, f);
      if reply != Ok {
        return;
      }
      if i.backing != "" {
        reply := DeleteNodeWithZeroReference(i.backing, f);
      }
    }

    /** The name of an image is given up. */
    method Release(id: string)
      requires Valid() && id in images
      modifies images[id]
      ensures Records() == Unname(old(Records()), id)
      ensures images[id].backing == old(images[id].backing)
    {
      images[id].volumeRef := "";
      SameImages(Records(), Unname(old(Records()), id));
    }

    method DeleteVolume(id: string, f: Faults) returns (reply: Reply)
      requires Valid()
      modifies this, images.Values, volManager
      ensures Valid() && images.Values <= old(images.Values)
      ensures Result(View(), reply) == Store.DeleteVolume(old(View()), id, f)
    {
      if id !in activeLayers {
        return Failed(ActiveLayerNotFound);
      }
      var layer := activeLayers[id];
      if layer !in images {
        return Failed(ImageNotFound);
      }
      var base: QCOWImage? := null;
      if images[layer].refCount < 1 && layer == id {
        base := images[id];
        reply := DeleteImage(id, f);
        if reply != Ok {
          return;
        }
      } else if id in images {
        base := images[id];
        Release(id);
      }
      reply := FinishDelete(id, base, f);
    }

    /** The common end of both ways through DeleteVolume; a nil base image is dereferenced. */
    method FinishDelete(id: string, base: QCOWImage?, f: Faults) returns (reply: Reply)
      requires Valid()
      modifies this, images.Values, volManager
      ensures Valid() && images.Values <= old(images.Values)
      ensures Result(View(), reply) ==
              old(Store.FinishDelete(View(), id, if base == null then None else Some(base.Value()), f))
    {
      activeLayers := activeLayers - {id};
      if f.rmdir {
        return Failed(DirectoryNotCleaned);
      }
      if base == null {
        return Panicked;
      }
      reply := DeleteNodeWithZeroReference(base.backing, f);
    }

    method DeleteSnapshot(id: string, source: string, f: Faults) returns (reply: Reply)
      requires Valid()
      modifies this, images.Values, volManager
      ensures Valid() && images.Values <= old(images.Values)
      ensures Result(View(), reply) == Store.DeleteSnapshot(old(View()), id, source, f)
    {
      if id !in images {
        return Failed(ImageNotFound);
      }
      var s := images[id];
      var isActiveLayer := source in activeLayers && activeLayers[source] == id;
      if s.refCount < 1 && !isActiveLayer {
        reply := DeleteImage(id, f);
        if reply != Ok {
          return;
        }
      } else {
        Release(id);
      }
      reply := DeleteNodeWithZeroReference(s.backing, f);
    }

    /** The images in whatever order the map yields them. */
    method ListVolumes() returns (volumes: seq<Volume>)
      requires Valid()
      ensures ListsAll(Records(), volumes)
    {
      volumes := [];
      var rest := images.Keys;
      while rest != {}
        invariant rest <= images.Keys
        invariant ListsSome(Records(), volumes)
        invariant Ids(volumes) == images.Keys - rest
      {
        var k :| k in rest;
        var v := images[k];
        IdsAppend(volumes, Volume(v.qsdId, v.backing, v.file, v.refCount, v.depth, k));
        volumes := volumes + [Volume(v.qsdId, v.backing, v.file, v.refCount, v.depth, k)];
        rest := rest - {k};
      }
    }
  }
}
