/**
 * Change detection by polling: the project's file tree is flattened to its
 * `.tex` and `.bib` paths, each path is probed with a HEAD request, and a
 * change is reported when its `Last-Modified` time moved strictly past a
 * previously recorded, truthy time. The recorded times live in a map that
 * the poll updates in place.
 */
module FileWatcher {
  import opened Text
  import opened Types

  // ---------------------------------------------------------------------------
  // Flattening the tree
  // ---------------------------------------------------------------------------

  /** The paths of the `tex` and `bib` entries, depth first, in list order. */
  function Flattened(files: seq<FileNode>): seq<string>
    decreases files
  {
    if files == [] then []
    else
      var f := files[0];
      (if f.kind == Directory && f.hasChildren then Flattened(f.children)
       else if f.kind == Tex || f.kind == Bib then [f.path]
       else [])
      + Flattened(files[1..])
  }

  /** Flattening a list in two parts gives the two results, in order. */
  lemma {:induction false} FlattenedAppend(a: seq<FileNode>, b: seq<FileNode>)
    ensures Flattened(a + b) == Flattened(a) + Flattened(b)
    decreases a
  {
    if a == [] {
      assert a + b == b;
    } else {
      assert (a + b)[0] == a[0];
      assert (a + b)[1..] == a[1..] + b;
      FlattenedAppend(a[1..], b);
    }
  }

  /**
   * `p` is the path of a `tex` or `bib` entry of `files`, at the top or
   * below directories that carry their children.
   */
  ghost predicate ListedLeaf(files: seq<FileNode>, p: string)
    decreases files
  {
    exists i :: 0 <= i < |files| &&
      ((files[i].kind in {Tex, Bib} && files[i].path == p)
       || (files[i].kind == Directory && files[i].hasChildren
           && ListedLeaf(files[i].children, p)))
  }

  /**
   * Exactly the paths of `tex`/`bib` leaves come out: a directory never
   * contributes its own path, and one without children contributes nothing.
   */
  lemma {:induction false} FlattenedIsLeaves(files: seq<FileNode>, p: string)
    ensures p in Flattened(files) <==> ListedLeaf(files, p)
    decreases files
  {
    if files != [] {
      var f := files[0];
      FlattenedIsLeaves(files[1..], p);
      if f.kind == Directory && f.hasChildren {
        FlattenedIsLeaves(f.children, p);
      }
      if ListedLeaf(files[1..], p) {
        var i :| 0 <= i < |files[1..]| &&
          ((files[1..][i].kind in {Tex, Bib} && files[1..][i].path == p)
           || (files[1..][i].kind == Directory && files[1..][i].hasChildren
               && ListedLeaf(files[1..][i].children, p)));
        assert files[i + 1] == files[1..][i];
      }
      if ListedLeaf(files, p) {
        var i :| 0 <= i < |files| &&
          ((files[i].kind in {Tex, Bib} && files[i].path == p)
           || (files[i].kind == Directory && files[i].hasChildren
               && ListedLeaf(files[i].children, p)));
        if i > 0 {
          assert files[1..][i - 1] == files[i];
        }
      }
    }
  }

  /** `flattenFiles`: pushes each leaf path, and a directory's flattened children. */
  method FlattenFiles(fileList: seq<FileNode>) returns (result: seq<string>)
    ensures result == Flattened(fileList)
    decreases fileList
  {
    result := [];
    for i := 0 to |fileList|
      invariant result == Flattened(fileList[..i])
    {
      var file := fileList[i];
      assert fileList[..i + 1] == fileList[..i] + [file];
      FlattenedAppend(fileList[..i], [file]);
      if file.kind == Directory && file.hasChildren {
        var sub := FlattenFiles(file.children);
        result := result + sub;
      } else if file.kind == Tex || file.kind == Bib {
        result := result + [file.path];
      }
    }
    assert fileList[..|fileList|] == fileList;
  }

  // ---------------------------------------------------------------------------
  // One poll
  // ---------------------------------------------------------------------------

  /** A time in milliseconds, or `NaN` when the header does not parse as a date. */
  datatype Stamp = Ms(ms: int) | NaN

  /**
   * A HEAD request: its promise rejected, it answered with a non-ok status,
   * or it answered ok with a (non-empty) `Last-Modified` header or without one.
   */
  datatype Head = Rejected | NotOk | Answered(lastModified: Option<Stamp>)

  /** JavaScript truthiness of the stored time: present, not 0 and not NaN. */
  predicate Truthy(m: map<string, Stamp>, path: string) {
    path in m && m[path].Ms? && m[path].ms != 0
  }

  /** `timestamp > previousTimestamp`, false whenever either is NaN. */
  predicate Later(t: Stamp, prev: Stamp) {
    t.Ms? && prev.Ms? && t.ms > prev.ms
  }

  datatype StepResult = StepResult(timestamps: map<string, Stamp>, notify: bool)

  /** The handling of one path whose HEAD request did not reject. */
  function Observe(m: map<string, Stamp>, path: string, h: Head): (r: StepResult)
    // A change is reported iff there was a truthy earlier time and the new one is strictly later.
    ensures r.notify <==> h.Answered? && h.lastModified.Some? && Truthy(m, path) && Later(h.lastModified.value, m[path])
    // The first sighting of a path is recorded silently.
    ensures path !in m ==> !r.notify
    // A usable header always overwrites the stored time, even with a smaller one.
    ensures h.Answered? && h.lastModified.Some? ==>
      path in r.timestamps && r.timestamps[path] == h.lastModified.value
    // Nothing else in the map changes, and a non-ok answer or a missing header changes nothing.
    ensures forall k :: k != path ==> (k in r.timestamps <==> k in m) && (k in m ==> r.timestamps[k] == m[k])
    ensures !(h.Answered? && h.lastModified.Some?) ==> r.timestamps == m
  {
    match h
    case Answered(Some(t)) => StepResult(m[path := t], Truthy(m, path) && Later(t, m[path]))
    case _ => StepResult(m, false)
  }

  datatype PollResult = PollResult(timestamps: map<string, Stamp>, notified: seq<string>)

  /**
   * The poll over `paths`, the first of which is the `offset`-th probed;
   * `heads(k)` is the answer to the k-th HEAD request. A rejected request
   * ends the poll, keeping what was recorded so far.
   */
  function PollFrom(m: map<string, Stamp>, paths: seq<string>, heads: nat -> Head, offset: nat): PollResult
    decreases |paths|
  {
    if paths == [] || heads(offset).Rejected? then PollResult(m, [])
    else
      var s := Observe(m, paths[0], heads(offset));
      var rest := PollFrom(s.timestamps, paths[1..], heads, offset + 1);
      PollResult(rest.timestamps, (if s.notify then [paths[0]] else []) + rest.notified)
  }

  lemma ConcatAssoc(a: seq<string>, b: seq<string>, c: seq<string>)
    ensures (a + b) + c == a + (b + c)
  {
  }

  /** One step of the poll: the first path is observed, then the rest is polled. */
  lemma PollStep(m: map<string, Stamp>, paths: seq<string>, heads: nat -> Head, offset: nat,
                 m': map<string, Stamp>, changed: bool)
    requires paths != [] && !heads(offset).Rejected?
    requires StepResult(m', changed) == Observe(m, paths[0], heads(offset))
    ensures PollFrom(m, paths, heads, offset).timestamps == PollFrom(m', paths[1..], heads, offset + 1).timestamps
    ensures PollFrom(m, paths, heads, offset).notified
      == (if changed then [paths[0]] else []) + PollFrom(m', paths[1..], heads, offset + 1).notified
  {
  }

  /** Entries for paths not polled are never touched, and no entry is ever removed. */
  lemma {:induction false} PollKeepsOthers(m: map<string, Stamp>, paths: seq<string>, heads: nat -> Head, offset: nat)
    ensures m.Keys <= PollFrom(m, paths, heads, offset).timestamps.Keys
    ensures forall k :: k in m && k !in paths ==> PollFrom(m, paths, heads, offset).timestamps[k] == m[k]
    ensures forall k :: k !in m && k !in paths ==> k !in PollFrom(m, paths, heads, offset).timestamps
    decreases |paths|
  {
    if paths != [] && !heads(offset).Rejected? {
      var s := Observe(m, paths[0], heads(offset));
      PollKeepsOthers(s.timestamps, paths[1..], heads, offset + 1);
      forall k | k !in paths ensures k !in paths[1..] && k != paths[0] { }
    }
  }

  /** `sub` is `s` with some elements left out, order kept. */
  predicate IsSubsequence(sub: seq<string>, s: seq<string>)
    decreases |s|
  {
    sub == [] ||
    (s != [] && ((sub[0] == s[0] && IsSubsequence(sub[1..], s[1..])) || IsSubsequence(sub, s[1..])))
  }

  predicate Distinct(s: seq<string>) {
    forall i, j :: 0 <= i < j < |s| ==> s[i] != s[j]
  }

  /** Reported paths are polled paths, in polling order. */
  lemma {:induction false} PollNotifiesInOrder(m: map<string, Stamp>, paths: seq<string>, heads: nat -> Head, offset: nat)
    ensures IsSubsequence(PollFrom(m, paths, heads, offset).notified, paths)
    decreases |paths|
  {
    if paths != [] && !heads(offset).Rejected? {
      var s := Observe(m, paths[0], heads(offset));
      var rest := PollFrom(s.timestamps, paths[1..], heads, offset + 1);
      PollNotifiesInOrder(s.timestamps, paths[1..], heads, offset + 1);
      if s.notify {
        assert ([paths[0]] + rest.notified)[1..] == rest.notified;
      } else {
        assert ([] + rest.notified) == rest.notified;
      }
    }
  }

  lemma {:induction false} SubsequenceMembers(sub: seq<string>, s: seq<string>)
    requires IsSubsequence(sub, s)
    ensures forall x :: x in sub ==> x in s
    decreases |s|
  {
    if sub != [] {
      if sub[0] == s[0] && IsSubsequence(sub[1..], s[1..]) {
        SubsequenceMembers(sub[1..], s[1..]);
        forall x | x in sub ensures x in s {
          if x != sub[0] {
            assert x in sub[1..];
          }
        }
      } else {
        SubsequenceMembers(sub, s[1..]);
      }
    }
  }

  lemma {:induction false} SubsequenceDistinct(sub: seq<string>, s: seq<string>)
    requires IsSubsequence(sub, s) && Distinct(s)
    ensures Distinct(sub)
    decreases |s|
  {
    if sub != [] {
      assert Distinct(s[1..]) by {
        forall i, j | 0 <= i < j < |s[1..]| ensures s[1..][i] != s[1..][j] {
          assert s[1..][i] == s[i + 1] && s[1..][j] == s[j + 1];
        }
      }
      if sub[0] == s[0] && IsSubsequence(sub[1..], s[1..]) {
        SubsequenceDistinct(sub[1..], s[1..]);
        SubsequenceMembers(sub[1..], s[1..]);
        forall j | 0 < j < |sub| ensures sub[0] != sub[j] {
          assert sub[j] == sub[1..][j - 1];
          assert sub[j] in s[1..];
          var k :| 0 <= k < |s[1..]| && s[1..][k] == sub[j];
          assert s[k + 1] == sub[j];
        }
        forall i, j | 0 <= i < j < |sub| ensures sub[i] != sub[j] {
          if i > 0 {
            assert sub[i] == sub[1..][i - 1] && sub[j] == sub[1..][j - 1];
          }
        }
      } else {
        SubsequenceDistinct(sub, s[1..]);
      }
    }
  }

  /** Within one poll, a path listed once is reported at most once. */
  lemma PollNotifiesOnce(m: map<string, Stamp>, paths: seq<string>, heads: nat -> Head)
    requires Distinct(paths)
    ensures Distinct(PollFrom(m, paths, heads, 0).notified)
  {
    PollNotifiesInOrder(m, paths, heads, 0);
    SubsequenceDistinct(PollFrom(m, paths, heads, 0).notified, paths);
  }

  /** The hook's per-project state: the last time recorded for each path. */
  class PollingWatcher {
    var timestamps: map<string, Stamp>

    constructor ()
      ensures timestamps == map[]
    {
      timestamps := map[];
    }

    /**
     * The handling of one path whose HEAD request did not reject: a usable
     * `Last-Modified` time is compared with the stored one and then stored.
     * Returns whether `onFileChange` is called for the path.
     */
    method Record(filePath: string, h: Head) returns (changed: bool)
      modifies this
      requires !h.Rejected?
      ensures StepResult(timestamps, changed) == Observe(old(timestamps), filePath, h)
    {
      changed := false;
      if h.Answered? && h.lastModified.Some? {
        var timestamp := h.lastModified.value;
        if Truthy(timestamps, filePath) && Later(timestamp, timestamps[filePath]) {
          changed := true;
        }
        timestamps := timestamps[filePath := timestamp];
      }
    }

    /**
     * `checkFileChanges`: `listing` is the project's file tree when the list
     * request answers ok (`None` otherwise); `heads(k)` answers the k-th HEAD
     * request. Returns the paths passed to `onFileChange`, in order.
     */
    method CheckFileChanges(listing: Option<seq<FileNode>>, heads: nat -> Head) returns (notified: seq<string>)
      modifies this
      ensures listing.None? ==> timestamps == old(timestamps) && notified == []
      ensures listing.Some? ==>
        PollResult(timestamps, notified) == PollFrom(old(timestamps), Flattened(listing.value), heads, 0)
    {
      notified := [];
      if listing.None? {
        return;
      }
      var allTexFiles := FlattenFiles(listing.value);
      ghost var poll := PollFrom(timestamps, allTexFiles, heads, 0);
      var i := 0;
      while i < |allTexFiles|
        invariant 0 <= i <= |allTexFiles|
        invariant poll.timestamps == PollFrom(timestamps, allTexFiles[i..], heads, i).timestamps
        invariant poll.notified == notified + PollFrom(timestamps, allTexFiles[i..], heads, i).notified
      {
        var filePath := allTexFiles[i];
        var h := heads(i);
        if h.Rejected? {
          // The catch around the poll ends it here.
          break;
        }
        assert allTexFiles[i..][0] == filePath && allTexFiles[i..][1..] == allTexFiles[i + 1..];
        ghost var done, before := notified, timestamps;
        var changed := Record(filePath, h);
        if changed {
          notified := notified + [filePath];
        }
        PollStep(before, allTexFiles[i..], heads, i, timestamps, changed);
        ghost var added: seq<string> := if changed then [filePath] else [];
        ghost var rest := PollFrom(timestamps, allTexFiles[i + 1..], heads, i + 1).notified;
        assert notified == done + added;
        ConcatAssoc(done, added, rest);
        i := i + 1;
      }
      assert PollFrom(timestamps, allTexFiles[i..], heads, i).notified == [];
      assert notified + [] == notified;
    }
  }
}
