/**
  The storage daemon as the server sees it: a graph of named block nodes, each reading from one
  image file and possibly backed by another node, and the image files themselves.

  What the outside world answers during one call is a value of type `Faults`; a node is deleted
  at most once in a call, so the refusals of deletions are a set of node names.
 */
module BlockGraph {
  import opened Options

  datatype Node = Node(file: string, backing: Option<string>)

  /** The clusters an image file holds itself; all others are read from the backing node. */
  type Data = map<nat, nat>

  datatype Daemon = Daemon(nodes: map<string, Node>, files: map<string, Data>)

  datatype Command =
    | BlockdevAdd(name: string, file: string, backing: Option<string>)
    | BlockdevSnapshot(node: string, overlay: string)
    | BlockdevDel(name: string)

  /** Which steps outside the program fail during one call. */
  datatype Faults = Faults(
    mkdir: bool,
    stat: bool,
    qemuImg: bool,
    add: bool,
    snapshot: bool,
    del: set<string>,
    unlink: set<string>,
    rmdir: bool,
    socket: bool,
    vhost: bool)

  const NO_FAULTS := Faults(false, false, false, false, false, {}, {}, false, false, false)

  datatype Answer = Answer(daemon: Daemon, ok: bool)

  predicate InUse(nodes: map<string, Node>, name: string) {
    exists n | n in nodes :: nodes[n].backing == Some(name)
  }

  /** The daemon's own checks: names are unique, referenced nodes exist, a node in use stays. */
  predicate Accepts(d: Daemon, c: Command) {
    match c
    case BlockdevAdd(name, file, backing) =>
      name !in d.nodes && file in d.files && (backing.Some? ==> backing.value in d.nodes)
    case BlockdevSnapshot(node, overlay) =>
      node in d.nodes && overlay in d.nodes && node != overlay && d.nodes[overlay].backing == None
    case BlockdevDel(name) =>
      name in d.nodes && !InUse(d.nodes, name)
  }

  predicate Refused(f: Faults, c: Command) {
    match c
    case BlockdevAdd(_, _, _) => f.add
    case BlockdevSnapshot(_, _) => f.snapshot
    case BlockdevDel(name) => name in f.del
  }

  /** blockdev-snapshot puts the node under the overlay and moves all users of the node to the overlay. */
  function Redirected(nodes: map<string, Node>, node: string, overlay: string): map<string, Node> {
    map n | n in nodes ::
      if n == overlay then nodes[n].(backing := Some(node))
      else if nodes[n].backing == Some(node) then nodes[n].(backing := Some(overlay))
      else nodes[n]
  }

  function Apply(d: Daemon, c: Command): Daemon {
    match c
    case BlockdevAdd(name, file, backing) => d.(nodes := d.nodes[name := Node(file, backing)])
    case BlockdevSnapshot(node, overlay) => d.(nodes := Redirected(d.nodes, node, overlay))
    case BlockdevDel(name) => d.(nodes := d.nodes - {name})
  }

  function Execute(d: Daemon, c: Command, f: Faults): Answer {
    if Accepts(d, c) && !Refused(f, c) then Answer(Apply(d, c), true) else Answer(d, false)
  }

  /** Commands are issued in order until one fails. */
  function ExecuteAll(d: Daemon, cmds: seq<Command>, f: Faults): Answer
    decreases |cmds|
  {
    if cmds == [] then Answer(d, true)
    else
      var first := Execute(d, cmds[0], f);
      if first.ok then ExecuteAll(first.daemon, cmds[1..], f) else first
  }

  /** qemu-img writes a fresh overlay file, over an existing file of that name if there is one. */
  function CreateOverlayFile(d: Daemon, image: string, file: string, f: Faults): Answer {
    if f.qemuImg || image !in d.files then Answer(d, false)
    else Answer(d.(files := d.files[file := map[]]), true)
  }

  /** createImage: an existing file is taken as it is. */
  function CreateDisk(d: Daemon, file: string, name: string, f: Faults): Answer {
    if file !in d.files && f.qemuImg then Answer(d, false)
    else
      var d1 := if file in d.files then d else d.(files := d.files[file := map[]]);
      Execute(d1, BlockdevAdd(name, file, None), f)
  }

  function CreateWithBackingNode(
    d: Daemon, node: string, name: string, image: string, file: string, f: Faults): Answer
  {
    var a := CreateOverlayFile(d, image, file, f);
    if !a.ok then a else Execute(a.daemon, BlockdevAdd(name, file, Some(node)), f)
  }

  function CreateAndInstall(d: Daemon, node: string, name: string, image: string, file: string, f: Faults): Answer {
    var a := CreateOverlayFile(d, image, file, f);
    if !a.ok then a
    else ExecuteAll(a.daemon, [BlockdevAdd(name, file, None), BlockdevSnapshot(node, name)], f)
  }

  function DeleteNode(d: Daemon, name: string, f: Faults): Answer {
    Execute(d, BlockdevDel(name), f)
  }
}
