/**
 * Volume and snapshot IDs: how CreateVolume and CreateSnapshot build them and
 * how every later call takes them apart (pkg/driver/utils.go,
 * pkg/driver/controller.go, pkg/driver/node_helper.go). The path functions are
 * those of Go's path/filepath on a system whose separator is '/', on all
 * strings.
 */
module VolumeIds {
  import opened Wrappers

  const PREFIX := "/"

  // ------------------------------------------------------------------ paths

  /** strings.Split on a one-character separator. */
  function Split(s: string, sep: char): (tokens: seq<string>)
    ensures tokens != []
  {
    if s == "" then [""]
    else if s[0] == sep then [""] + Split(s[1..], sep)
    else
      var rest := Split(s[1..], sep);
      [[s[0]] + rest[0]] + rest[1..]
  }

  function Join(segments: seq<string>): string {
    if segments == [] then "" else if |segments| == 1 then segments[0] else segments[0] + "/" + Join(segments[1..])
  }

  /** The segments Clean keeps, given those kept so far. */
  function Keep(kept: seq<string>, segments: seq<string>, rooted: bool): seq<string>
    decreases |segments|
  {
    if segments == [] then kept
    else
      var s, rest := segments[0], segments[1..];
      if s == "" || s == "." then Keep(kept, rest, rooted)
      else if s != ".." then Keep(kept + [s], rest, rooted)
      else if kept != [] && kept[|kept| - 1] != ".." then Keep(kept[..|kept| - 1], rest, rooted)
      else Keep(if rooted then kept else kept + [s], rest, rooted)
  }

  function Clean(p: string): string {
    var rooted := p != "" && p[0] == '/';
    var kept := Keep([], Split(p, '/'), rooted);
    if rooted then "/" + Join(kept) else if kept == [] then "." else Join(kept)
  }

  /** The path up to and with its last slash. */
  function UpToSlash(p: string): (r: string)
    ensures r <= p
  {
    if p == "" || p[|p| - 1] == '/' then p else UpToSlash(p[..|p| - 1])
  }

  function Dir(p: string): string {
    Clean(UpToSlash(p))
  }

  function TrimSlashes(p: string): string {
    if p != "" && p[|p| - 1] == '/' then TrimSlashes(p[..|p| - 1]) else p
  }

  function Base(p: string): string {
    if p == "" then "."
    else
      var t := TrimSlashes(p);
      if t == "" then "/" else t[|UpToSlash(t)|..]
  }

  // ------------------------------------------------------------- volume IDs

  /** A share or volume name that is one path segment of its own. */
  predicate Plain(name: string) {
    name != "" && name != "." && name != ".." && '/' !in name
  }

  /** A native NFS volume is a share under the prefix. */
  function ShareId(share: string): string {
    PREFIX + share
  }

  /** A file-backed or nested volume is an entry of its backing share. */
  function InsideId(share: string, name: string): string {
    PREFIX + share + "/" + name
  }

  predicate IsFileBacked(id: string) {
    Dir(id) != PREFIX
  }

  lemma {:induction false} SplitOne(s: string, sep: char)
    requires sep !in s
    ensures Split(s, sep) == [s]
  {
    if s != "" {
      SplitOne(s[1..], sep);
      assert [s[0]] + s[1..] == s;
    }
  }

  lemma {:induction false} SplitFirst(a: string, b: string, sep: char)
    requires sep !in a
    ensures Split(a + [sep] + b, sep) == [a] + Split(b, sep)
  {
    var s := a + [sep] + b;
    if a == "" {
      assert s == [sep] + b && s[1..] == b;
    } else {
      SplitFirst(a[1..], b, sep);
      assert s[1..] == a[1..] + [sep] + b && [a[0]] + a[1..] == a;
    }
  }

  lemma {:induction false} CutLast(a: string, name: string)
    requires '/' !in name
    ensures UpToSlash(a + "/" + name) == a + "/"
  {
    var p := a + "/" + name;
    if name == "" {
      assert p == a + "/";
    } else {
      assert p[..|p| - 1] == a + "/" + name[..|name| - 1];
      CutLast(a, name[..|name| - 1]);
    }
  }

  /** Cleaning "/share/" drops exactly the names that are not a segment. */
  lemma CleanOne(share: string)
    requires '/' !in share
    ensures Clean("/" + share + "/") == if Plain(share) then "/" + share else "/"
  {
    var p := "/" + share + "/";
    assert p == "" + ['/'] + (share + ['/'] + "");
    SplitFirst("", share + ['/'] + "", '/');
    SplitFirst(share, "", '/');
    assert Split(p, '/') == ["", share, ""];
    assert Split(p, '/')[1..] == [share, ""] && [share, ""][1..] == [""] && [""][1..] == [];
    assert [] + [share] == [share];
    assert Keep([], ["", share, ""], true) == Keep([], [share, ""], true);
    if Plain(share) {
      assert Keep([], [share, ""], true) == Keep([share], [""], true) == Keep([share], [], true);
    } else {
      assert Keep([], [share, ""], true) == Keep([], [""], true) == Keep([], [], true);
    }
  }

  lemma DirOfInside(share: string, name: string)
    requires '/' !in share && '/' !in name
    ensures Dir(InsideId(share, name)) == if Plain(share) then ShareId(share) else PREFIX
  {
    CutLast("/" + share, name);
    CleanOne(share);
  }

  lemma DirOfShare(share: string)
    requires '/' !in share
    ensures Dir(ShareId(share)) == PREFIX
  {
    assert ShareId(share) == "" + "/" + share;
    CutLast("", share);
    assert Split("/", '/') == ["", ""] by { assert "/" == "" + ['/'] + ""; SplitFirst("", "", '/'); }
    assert Keep([], ["", ""], true) == [] by {
      assert ["", ""][1..] == [""] && [""][1..] == [];
      assert Keep([], [""], true) == Keep([], [], true);
    }
  }

  /** A ".." takes the segment before it away. */
  lemma CleanGoesUp(a: string, b: string)
    requires Plain(a) && Plain(b)
    ensures Clean("/" + a + "/" + b + "/../") == "/" + a
  {
    var p := "/" + a + "/" + b + "/../";
    var last := ".." + ['/'] + "";
    assert p == "" + ['/'] + (a + ['/'] + (b + ['/'] + last));
    SplitFirst("", a + ['/'] + (b + ['/'] + last), '/');
    SplitFirst(a, b + ['/'] + last, '/');
    SplitFirst(b, last, '/');
    SplitFirst("..", "", '/');
    assert Split(p, '/') == ["", a, b, "..", ""];
    KeepUp(a, b);
  }

  /** At the root it takes nothing away; and it stays where there is no root. */
  lemma CleanStopsAtRoot(a: string)
    requires Plain(a)
    ensures Clean("/../" + a + "/") == "/" + a
  {
    var q := "/../" + a + "/";
    assert q == "" + ['/'] + (".." + ['/'] + (a + ['/'] + ""));
    SplitFirst("", ".." + ['/'] + (a + ['/'] + ""), '/');
    SplitFirst("..", a + ['/'] + "", '/');
    SplitFirst(a, "", '/');
    assert Split(q, '/') == ["", "..", a, ""];
    KeepRoot(a);
  }

  lemma CleanKeepsRelative(a: string)
    requires Plain(a)
    ensures Clean("../" + a) == "../" + a
  {
    assert "../" + a == ".." + ['/'] + a;
    SplitFirst("..", a, '/');
    SplitOne(a, '/');
    assert Split("../" + a, '/') == ["..", a];
    KeepRelative(a);
    assert ("../" + a)[0] == '.' && ["..", a][1..] == [a];
    assert Join(["..", a]) == ".." + "/" + Join([a]) == "../" + a;
  }

  lemma KeepUp(a: string, b: string)
    requires Plain(a) && Plain(b)
    ensures Keep([], ["", a, b, "..", ""], true) == [a]
  {
    assert ["", a, b, "..", ""][1..] == [a, b, "..", ""] && [a, b, "..", ""][1..] == [b, "..", ""];
    assert [b, "..", ""][1..] == ["..", ""] && ["..", ""][1..] == [""] && [""][1..] == [];
    assert [] + [a] == [a] && [a] + [b] == [a, b] && [a, b][..1] == [a];
    assert Keep([a], ["", ""][1..], true) == Keep([a], [], true);
    assert Keep([a, b], ["..", ""], true) == Keep([a], [""], true);
    assert Keep([a], [b, "..", ""], true) == Keep([a, b], ["..", ""], true);
    assert Keep([], [a, b, "..", ""], true) == Keep([a], [b, "..", ""], true);
  }

  lemma KeepRoot(a: string)
    requires Plain(a)
    ensures Keep([], ["", "..", a, ""], true) == [a]
  {
    assert ["", "..", a, ""][1..] == ["..", a, ""] && ["..", a, ""][1..] == [a, ""];
    assert [a, ""][1..] == [""] && [""][1..] == [] && [] + [a] == [a];
    assert Keep([a], [""], true) == Keep([a], [], true);
    assert Keep([], [a, ""], true) == Keep([a], [""], true);
    assert Keep([], ["..", a, ""], true) == Keep([], [a, ""], true);
  }

  lemma KeepRelative(a: string)
    requires Plain(a)
    ensures Keep([], ["..", a], false) == ["..", a]
  {
    assert ["..", a][1..] == [a] && [a][1..] == [] && [] + [".."] == [".."] && [".."] + [a] == ["..", a];
    assert Keep([".."], [a], false) == Keep(["..", a], [], false);
    assert Keep([], ["..", a], false) == Keep([".."], [a], false);
  }

  /**
   * IDs classify back. A share ID is never taken for a volume inside a share;
   * an ID inside a share is recognised exactly when the share's name is a
   * segment of its own ("", "." and ".." are not, and are misclassified).
   */
  lemma IdsClassify(share: string, name: string)
    requires '/' !in share && '/' !in name
    ensures !IsFileBacked(ShareId(share))
    ensures IsFileBacked(InsideId(share, name)) <==> Plain(share)
  {
    DirOfShare(share);
    DirOfInside(share, name);
    assert Plain(share) ==> ShareId(share)[1..] == share && PREFIX[1..] == "";
  }

  lemma BaseOf(a: string, name: string)
    requires name != "" && '/' !in name
    ensures Base(a + "/" + name) == name
  {
    var p := a + "/" + name;
    assert p[|p| - 1] == name[|name| - 1];
    CutLast(a, name);
  }

  /** deleteFileBackedVolume finds the share, its staging directory and the file name the ID was built from. */
  lemma DeleteTakesIdApart(share: string, name: string)
    requires Plain(share) && Plain(name)
    ensures Dir(InsideId(share, name)) == ShareId(share)
    ensures Base(Dir(InsideId(share, name))) == share
    ensures Base(InsideId(share, name)) == name
    ensures Base(ShareId(share)) == share
  {
    DirOfInside(share, name);
    BaseOf(PREFIX + share, name);
    assert ShareId(share) == "" + "/" + share;
    BaseOf("", share);
  }

  /** Different volumes have different IDs. */
  lemma IdsAreUnique(share: string, name: string, share': string, name': string)
    requires Plain(share) && Plain(name) && Plain(share') && Plain(name')
    ensures InsideId(share, name) == InsideId(share', name') ==> share == share' && name == name'
    ensures ShareId(share) == ShareId(share') ==> share == share'
    ensures ShareId(share) != InsideId(share', name')
  {
    DeleteTakesIdApart(share, name);
    DeleteTakesIdApart(share', name');
    IdsClassify(share, name);
    IdsClassify(share', name');
  }

  // ------------------------------------------------------------- nested NFS

  /** nestedNFSSubPath. */
  function SubPath(id: string, root: string): Option<string> {
    var sub := if root <= id then id[|root|..] else id;
    if sub == id || !("/" <= sub) || |sub| < 2 then None else Some(sub)
  }

  /** A sub-path is returned exactly when it rejoins to the ID, below a nonempty export path. */
  lemma SubPathRejoins(id: string, root: string, sub: string)
    ensures SubPath(id, root) == Some(sub) <==> root != "" && id == root + sub && |sub| >= 2 && sub[0] == '/'
  {
    if id == root + sub {
      assert root <= id && id[|root|..] == sub;
    }
    if root <= id {
      assert id == root + id[|root|..];
    }
  }

  lemma NestedVolumeIsInside(share: string, name: string)
    requires Plain(share) && Plain(name)
    ensures SubPath(InsideId(share, name), ShareId(share)) == Some("/" + name)
  {
    assert InsideId(share, name) == ShareId(share) + ("/" + name);
    SubPathRejoins(InsideId(share, name), ShareId(share), "/" + name);
  }

  // ----------------------------------------------------------- snapshot IDs

  function SnapshotId(name: string, volume: string): string {
    name + "|" + volume
  }

  function SnapshotName(id: string): Option<string> {
    var tokens := Split(id, '|');
    if |tokens| < 2 then None else Some(tokens[0])
  }

  function SnapshotSource(id: string): Option<string> {
    var tokens := Split(id, '|');
    if |tokens| < 2 then None else Some(tokens[1])
  }

  lemma {:induction false} SplitCount(s: string, sep: char)
    ensures |Split(s, sep)| == 1 <==> sep !in s
    ensures sep !in Split(s, sep)[0]
  {
    if s != "" { SplitCount(s[1..], sep); }
  }

  /** An ID is refused exactly when it has no separator. */
  lemma MalformedIds(id: string)
    ensures SnapshotName(id).None? <==> '|' !in id
    ensures SnapshotSource(id).None? <==> '|' !in id
  {
    SplitCount(id, '|');
  }

  /** The name comes back exactly when it has no separator, and then the volume exactly when it has none. */
  lemma SnapshotIdRoundTrip(name: string, volume: string)
    ensures SnapshotName(SnapshotId(name, volume)) == Some(name) <==> '|' !in name
    ensures '|' !in name ==> (SnapshotSource(SnapshotId(name, volume)) == Some(volume) <==> '|' !in volume)
  {
    var id := SnapshotId(name, volume);
    SplitCount(id, '|');
    if '|' !in name {
      assert id == name + ['|'] + volume;
      SplitFirst(name, volume, '|');
      SplitCount(volume, '|');
      if '|' !in volume { SplitOne(volume, '|'); }
    }
  }

  // -------------------------------------------------------- backend choices

  datatype ShareAnswer = Unanswered | Missing | Exists

  /** The backend object a snapshot call goes to. */
  datatype Backend = Refused | Failed | Absent | OfShare(share: string) | OfFile(path: string)

  function CreateBackend(source: string, answer: ShareAnswer): Backend {
    if IsFileBacked(source) then OfFile(source)
    else match answer
      case Unanswered => Failed
      case Missing => OfFile(source)
      case Exists => OfShare(Base(source))
  }

  /** DeleteSnapshot, and the snapshot name it passes on; a malformed ID is a success that calls nothing. */
  function DeleteBackend(id: string, answer: ShareAnswer): (Backend, string) {
    var name, source := SnapshotName(id), SnapshotSource(id);
    if name.None? || source.None? then (Refused, "")
    else
      (if IsFileBacked(source.value) then OfFile(source.value)
       else match answer
         case Unanswered => Failed
         case Exists => OfShare(Base(source.value))
         case Missing => OfFile(source.value), name.value)
  }

  /** findSnapshotByID: a missing share means there is no such snapshot. */
  function FindBackend(id: string, answer: ShareAnswer): (Backend, string) {
    var name, source := SnapshotName(id), SnapshotSource(id);
    if name.None? || source.None? then (Refused, "")
    else
      (if IsFileBacked(source.value) then OfFile(source.value)
       else match answer
         case Unanswered => Failed
         case Missing => Absent
         case Exists => OfShare(Base(source.value)), name.value)
  }

  /**
   * For the ID CreateSnapshot built, with the snapshot name it was given:
   * delete goes to the backend object create used exactly when the source is
   * inside a share or the Anvil answers now as it did then; list does so
   * exactly under the same condition and while the share is not gone. So a
   * share removed in between sends the delete to a file of that name.
   */
  lemma BackendsAgree(hsName: string, source: string, then_: ShareAnswer, now: ShareAnswer)
    requires '|' !in hsName && '|' !in source
    ensures var id, created := SnapshotId(hsName, source), CreateBackend(source, then_);
            && DeleteBackend(id, now).1 == FindBackend(id, now).1 == hsName
            && (DeleteBackend(id, now).0 == created <==> IsFileBacked(source) || then_ == now)
            && (FindBackend(id, now).0 == created <==> IsFileBacked(source) || (then_ == now && !now.Missing?))
  {
    SnapshotIdRoundTrip(hsName, source);
  }

  /** A share snapshot whose share is removed before the delete: the delete goes to a file of that name. */
  lemma DeleteAfterShareRemoved()
    ensures CreateBackend("/data", Exists) == OfShare("data")
    ensures DeleteBackend(SnapshotId("snap", "/data"), Missing) == (OfFile("/data"), "snap")
  {
    var d := "data";
    assert d[0] == 'd' && '/' !in d && '|' !in d && "/data" == ShareId(d);
    assert d != "." && d != ".." by { assert |d| == 4; }
    IdsClassify(d, "x");
    DeleteTakesIdApart(d, "x");
    SnapshotIdRoundTrip("snap", "/data");
  }

  /** A file in a share named ".", whose ID is taken for a share's. */
  lemma DotIsMisclassified()
    ensures InsideId(".", "f") == "/./f" && !IsFileBacked("/./f")
  {
    IdsClassify(".", "f");
  }

  /** For IDs CreateVolume built: the share itself, or the file inside its share, whatever Anvil answers about it. */
  lemma BackendOfCreatedVolumes(hsName: string, share: string, name: string, answer: ShareAnswer)
    requires Plain(share) && Plain(name) && '|' !in hsName && '|' !in share && '|' !in name
    ensures DeleteBackend(SnapshotId(hsName, ShareId(share)), Exists) ==
      FindBackend(SnapshotId(hsName, ShareId(share)), Exists) == (OfShare(share), hsName)
    ensures var id := SnapshotId(hsName, InsideId(share, name));
            DeleteBackend(id, answer) == FindBackend(id, answer) == (OfFile(InsideId(share, name)), hsName)
  {
    IdsClassify(share, name);
    DeleteTakesIdApart(share, name);
    BackendsAgree(hsName, ShareId(share), Exists, Exists);
    BackendsAgree(hsName, InsideId(share, name), answer, answer);
  }
}
