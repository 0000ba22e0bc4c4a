/** Moving the reports of an older layout, `docs/`, to `site/docs/`
    (scripts/migrate-reports.js). The working directory is a `FileTree`
    directory; `mkdir`, `writeFile` and `rm` change it. A failing file
    system call rejects the whole migration and leaves what was already
    written in place. */
module MigrateReports {

  import opened Wrappers
  import opened Strings
  import opened FileTree

  /** `{ migrated, count }`, or a rejected promise. */
  datatype Outcome = Done(migrated: bool, count: nat) | Failed

  /** The destination directory after copying some source entries, how many
      files were copied, and whether every call succeeded. */
  datatype Step = Step(dest: seq<Entry>, count: nat, ok: bool)

  /** What copying one entry does at its own name in the destination: `node`
      is what the name holds afterwards, `None` when it is left as it was. */
  datatype NodeStep = NodeStep(node: Option<Node>, count: nat, ok: bool)

  predicate IsMarkdown(name: string) {
    EndsWith(name, ".md")
  }

  /** One entry of `migrateDirectory`'s loop, given what the destination
      holds under its name: a directory is created (`mkdir` fails on a file)
      and filled recursively; a `.md` file is written (`writeFile` fails on a
      directory) and counted; anything else is skipped. */
  function EntryResult(e: Entry, existing: Option<Node>): NodeStep
    decreases NodeSize(e.node), 0
  {
    match e.node
    case Dir(children) =>
      if existing.Some? && existing.value.File? then NodeStep(None, 0, false)
      else
        var inner := if existing.Some? then existing.value.entries else [];
        var sub := MigrateEntries(children, inner);
        NodeStep(Some(Dir(sub.dest)), sub.count, sub.ok)
    case File(content) =>
      if !IsMarkdown(e.name) then NodeStep(None, 0, true)
      else if existing.Some? && existing.value.Dir? then NodeStep(None, 0, false)
      else NodeStep(Some(File(content)), 1, true)
  }

  function MigrateEntry(e: Entry, dest: seq<Entry>): Step
    decreases NodeSize(e.node), 1
  {
    var r := EntryResult(e, Child(dest, e.name));
    Step(if r.node.Some? then Put(dest, e.name, r.node.value) else dest, r.count, r.ok)
  }

  /** `migrateDirectory(src, dest)`: the entries in `readdir` order, stopping
      at the first failure. */
  function MigrateEntries(src: seq<Entry>, dest: seq<Entry>): Step
    decreases EntriesSize(src), 2
  {
    if |src| == 0 then Step(dest, 0, true)
    else
      EntrySmaller(src, 0);
      var first := MigrateEntry(src[0], dest);
      if !first.ok then first
      else
        var rest := MigrateEntries(src[1..], first.dest);
        Step(rest.dest, first.count + rest.count, rest.ok)
  }

  /** The rest of a walk after `count` files were copied. */
  function After(count: nat, s: Step): Step {
    Step(s.dest, count + s.count, s.ok)
  }

  /** The walk from entry `i` on: that entry's step, then the rest unless it
      failed. */
  lemma MigrateFrom(src: seq<Entry>, i: nat, dest: seq<Entry>)
    requires i < |src|
    ensures var first := MigrateEntry(src[i], dest);
      MigrateEntries(src[i..], dest)
        == if !first.ok then first else After(first.count, MigrateEntries(src[i + 1..], first.dest))
  {
    assert src[i..][0] == src[i] && src[i..][1..] == src[i + 1..];
  }

  /** `migrateDirectory`: loops over the source entries, creating directories
      and recursing into them, and copying `.md` files. */
  method MigrateDirectory(src: seq<Entry>, dest: seq<Entry>) returns (newDest: seq<Entry>, count: nat, ok: bool)
    ensures Step(newDest, count, ok) == MigrateEntries(src, dest)
    decreases EntriesSize(src)
  {
    newDest, count, ok := dest, 0, true;
    var i := 0;
    while i < |src|
      invariant i <= |src|
      invariant After(count, MigrateEntries(src[i..], newDest)) == MigrateEntries(src, dest)
    {
      var entry := src[i];
      EntrySmaller(src, i);
      MigrateFrom(src, i, newDest);
      var existing := Child(newDest, entry.name);
      match entry.node {
        case Dir(children) =>
          if existing.Some? && existing.value.File? {
            return newDest, count, false;
          }
          var inner := if existing.Some? then existing.value.entries else [];
          var subDest, subCount, subOk := MigrateDirectory(children, inner);
          newDest := Put(newDest, entry.name, Dir(subDest));
          count := count + subCount;
          if !subOk {
            return newDest, count, false;
          }
        case File(content) =>
          if IsMarkdown(entry.name) {
            if existing.Some? && existing.value.Dir? {
              return newDest, count, false;
            }
            newDest := Put(newDest, entry.name, File(content));
            count := count + 1;
          }
      }
      i := i + 1;
    }
    assert src[i..] == [];
  }

  // ---------------------------------------------------------------------
  // migrateReports

  /** `entries.some(entry => entry.isDirectory() && /^\d{4}$/.test(entry.name))`. */
  predicate HasYearDir(es: seq<Entry>) {
    exists i :: 0 <= i < |es| && es[i].node.Dir? && IsFourDigits(es[i].name)
  }

  /** The entries of `site/docs` once `mkdir('site/docs', { recursive: true })`
      has run, or `None` when it fails because `site` or `site/docs` is a
      file. */
  function SiteDocs(root: seq<Entry>): Option<seq<Entry>> {
    match Child(root, "site")
    case None => Some([])
    case Some(File(_)) => None
    case Some(Dir(site)) =>
      match Child(site, "docs")
      case None => Some([])
      case Some(File(_)) => None
      case Some(Dir(docs)) => Some(docs)
  }

  /** The working directory with `site/docs` holding `docs`. */
  function WithSiteDocs(root: seq<Entry>, docs: seq<Entry>): seq<Entry> {
    var site := match Child(root, "site") case Some(Dir(es)) => es case _ => [];
    Put(root, "site", Dir(Put(site, "docs", Dir(docs))))
  }

  datatype Run = Run(outcome: Outcome, root: seq<Entry>)

  /** `migrateReports()` on a working directory; `removable` says whether
      `rm('docs', { recursive: true, force: true })` succeeds (its failure is
      only logged). */
  function Migration(root: seq<Entry>, removable: bool): Run {
    match Child(root, "docs")
    case None => Run(Done(false, 0), root)
    case Some(File(_)) => Run(Failed, root)
    case Some(Dir(docs)) =>
      if !HasYearDir(docs) then Run(Done(false, 0), root)
      else match SiteDocs(root)
        case None => Run(Failed, root)
        case Some(existing) =>
          var step := MigrateEntries(docs, existing);
          var copied := WithSiteDocs(root, step.dest);
          if !step.ok then Run(Failed, copied)
          else Run(Done(true, step.count), if removable then Remove(copied, "docs") else copied)
  }

  /** The process's working directory. */
  class FileSystem {
    var root: seq<Entry>

    constructor(root0: seq<Entry>)
      ensures root == root0
    {
      root := root0;
    }

    /** `migrateReports`: the two guards, `mkdir` of `site/docs`, the copy,
        and the removal of `docs`. */
    method MigrateReports(removable: bool) returns (outcome: Outcome)
      modifies this
      ensures Run(outcome, root) == Migration(old(root), removable)
    {
      var docsNode := Child(root, "docs");
      if docsNode.None? {
        return Done(false, 0);
      }
      if docsNode.value.File? {
        return Failed;
      }
      var docs := docsNode.value.entries;
      if !HasYearDir(docs) {
        return Done(false, 0);
      }
      var siteDocs := SiteDocs(root);
      if siteDocs.None? {
        return Failed;
      }
      var newDest, count, ok := MigrateDirectory(docs, siteDocs.value);
      root := WithSiteDocs(root, newDest);
      if !ok {
        return Failed;
      }
      if removable {
        root := Remove(root, "docs");
      }
      return Done(true, count);
    }
  }

  // ---------------------------------------------------------------------
  // Properties

  /** Without a `docs` directory nothing happens and nothing is migrated. */
  lemma NoDocsNoMigration(root: seq<Entry>, removable: bool)
    requires !HasName(root, "docs")
    ensures Migration(root, removable) == Run(Done(false, 0), root)
  {
    ChildSome(root, "docs");
  }

  /** A `docs` directory without a four-digit year directory is left alone. */
  lemma NoYearNoMigration(root: seq<Entry>, docs: seq<Entry>, removable: bool)
    requires Child(root, "docs") == Some(Dir(docs))
    requires forall i :: 0 <= i < |docs| && docs[i].node.Dir? ==> !IsFourDigits(docs[i].name)
    ensures Migration(root, removable) == Run(Done(false, 0), root)
  {
  }

  /** The number of `.md` files anywhere in a tree. */
  function CountMd(es: seq<Entry>): nat
    decreases EntriesSize(es)
  {
    if |es| == 0 then 0
    else
      EntrySmaller(es, 0);
      (match es[0].node
       case Dir(children) => CountMd(children)
       case File(_) => if IsMarkdown(es[0].name) then 1 else 0)
      + CountMd(es[1..])
  }

  /** A walk that succeeds copies exactly the `.md` files of the source. */
  lemma {:induction false} CountMigrated(src: seq<Entry>, dest: seq<Entry>)
    requires MigrateEntries(src, dest).ok
    ensures MigrateEntries(src, dest).count == CountMd(src)
    decreases EntriesSize(src)
  {
    if |src| > 0 {
      EntrySmaller(src, 0);
      var first := MigrateEntry(src[0], dest);
      var existing := Child(dest, src[0].name);
      var r := EntryResult(src[0], existing);
      assert first.ok && first.count == r.count;
      match src[0].node {
        case Dir(children) =>
          var inner := if existing.Some? then existing.value.entries else [];
          var sub := MigrateEntries(children, inner);
          assert r == NodeStep(Some(Dir(sub.dest)), sub.count, sub.ok);
          CountMigrated(children, inner);
        case File(_) =>
      }
      CountMigrated(src[1..], first.dest);
    }
  }

  /** Copying an entry touches no other name. */
  lemma MigrateEntryOthers(e: Entry, dest: seq<Entry>, other: string)
    requires other != e.name
    ensures Child(MigrateEntry(e, dest).dest, other) == Child(dest, other)
  {
    var r := EntryResult(e, Child(dest, e.name));
    if r.node.Some? {
      PutChild(dest, e.name, r.node.value, other);
    }
  }

  /** Names the source does not have are left as they were. */
  lemma {:induction false} MigrateEntriesOthers(src: seq<Entry>, dest: seq<Entry>, other: string)
    requires forall i :: 0 <= i < |src| ==> src[i].name != other
    ensures Child(MigrateEntries(src, dest).dest, other) == Child(dest, other)
    decreases |src|
  {
    if |src| > 0 {
      var first := MigrateEntry(src[0], dest);
      MigrateEntryOthers(src[0], dest, other);
      if first.ok {
        MigrateEntriesOthers(src[1..], first.dest, other);
      }
    }
  }

  /** In a walk that succeeds, each source entry's step succeeded and decided
      what its name holds, from what the destination held there before. */
  lemma {:induction false} MigrateEntriesAt(src: seq<Entry>, dest: seq<Entry>, i: nat)
    requires i < |src|
    requires forall a, b :: 0 <= a < b < |src| ==> src[a].name != src[b].name
    requires MigrateEntries(src, dest).ok
    ensures var r := EntryResult(src[i], Child(dest, src[i].name));
      r.ok && Child(MigrateEntries(src, dest).dest, src[i].name)
              == if r.node.Some? then r.node else Child(dest, src[i].name)
    decreases |src|
  {
    var first := MigrateEntry(src[0], dest);
    var name := src[i].name;
    if i == 0 {
      var r := EntryResult(src[0], Child(dest, name));
      if r.node.Some? {
        PutChild(dest, name, r.node.value, name);
      }
      MigrateEntriesOthers(src[1..], first.dest, name);
    } else {
      MigrateEntryOthers(src[0], dest, name);
      assert src[1..][i - 1] == src[i];
      MigrateEntriesAt(src[1..], first.dest, i - 1);
    }
  }

  /** Where a path leads in the source after a successful walk: a `.md` file
      is there with the same content, a directory is there as a directory,
      and a path the source does not have, or a file it does not copy, leads
      where it led before. */
  lemma {:induction false} PathsAfterMigration(src: seq<Entry>, dest: seq<Entry>, p: seq<string>)
    requires UniqueEntries(src)
    requires MigrateEntries(src, dest).ok
    ensures var out := Dir(MigrateEntries(src, dest).dest);
      && (forall c :: Lookup(Dir(src), p) == Some(File(c)) && IsMarkdown(p[|p| - 1]) ==>
            Lookup(out, p) == Some(File(c)))
      && (Lookup(Dir(src), p).Some? && Lookup(Dir(src), p).value.Dir? ==>
            Lookup(out, p).Some? && Lookup(out, p).value.Dir?)
      && (Lookup(Dir(src), p).None?
          || (Lookup(Dir(src), p).value.File? && !IsMarkdown(p[|p| - 1])) ==>
            Lookup(out, p) == Lookup(Dir(dest), p))
    decreases EntriesSize(src)
  {
    var out := MigrateEntries(src, dest).dest;
    if |p| > 0 {
      var name := p[0];
      var rest := p[1..];
      if i :| 0 <= i < |src| && src[i].name == name {
        UniqueChild(src, i);
        MigrateEntriesAt(src, dest, i);
        EntrySmaller(src, i);
        var existing := Child(dest, name);
        assert Lookup(Dir(src), p) == Lookup(src[i].node, rest);
        match src[i].node {
          case Dir(children) =>
            var inner := if existing.Some? then existing.value.entries else [];
            assert UniqueTree(src[i].node);
            PathsAfterMigration(children, inner, rest);
            if |rest| > 0 && existing.None? {
              assert Lookup(Dir(inner), rest).None?;
            }
          case File(content) =>
        }
      } else {
        MigrateEntriesOthers(src, dest, name);
        assert Find(src, name).None?;
      }
    }
  }

  /** After a migration that succeeds, below `site/docs`: every `.md` file
      of `docs` is at the same relative path with the same content, every
      directory of `docs` exists, and every other path leads where it led
      before. */
  lemma MigratedTree(root: seq<Entry>, removable: bool, docs: seq<Entry>, p: seq<string>)
    requires Child(root, "docs") == Some(Dir(docs)) && UniqueEntries(docs)
    requires Migration(root, removable).outcome.Done? && Migration(root, removable).outcome.migrated
    ensures var out := Dir(Migration(root, removable).root);
      var path := ["site", "docs"] + p;
      && (forall c :: Lookup(Dir(docs), p) == Some(File(c)) && IsMarkdown(p[|p| - 1]) ==>
            Lookup(out, path) == Some(File(c)))
      && (Lookup(Dir(docs), p).Some? && Lookup(Dir(docs), p).value.Dir? ==>
            Lookup(out, path).Some? && Lookup(out, path).value.Dir?)
      && (|p| > 0 && (Lookup(Dir(docs), p).None?
                      || (Lookup(Dir(docs), p).value.File? && !IsMarkdown(p[|p| - 1]))) ==>
            Lookup(out, path) == Lookup(Dir(root), path))
  {
    var existing := SiteDocs(root).value;
    var step := MigrateEntries(docs, existing);
    PathsAfterMigration(docs, existing, p);
    SiteDocsPath(root, step.dest, removable, p);
    if |p| > 0 {
      SiteDocsBefore(root, p);
    }
  }

  /** Below an existing `site/docs`, or one `mkdir` creates empty, a
      non-empty path leads where it leads in that directory. */
  lemma SiteDocsBefore(root: seq<Entry>, p: seq<string>)
    requires SiteDocs(root).Some? && |p| > 0
    ensures Lookup(Dir(root), ["site", "docs"] + p) == Lookup(Dir(SiteDocs(root).value), p)
  {
    var path := ["site", "docs"] + p;
    assert path[0] == "site" && path[1..][0] == "docs" && path[1..][1..] == p;
    match Child(root, "site") {
      case None =>
      case Some(File(_)) =>
      case Some(Dir(site)) =>
        assert Lookup(Dir(root), path) == Lookup(Dir(site), path[1..]);
        match Child(site, "docs") {
          case None =>
          case Some(File(_)) =>
          case Some(Dir(docs)) =>
            assert Lookup(Dir(site), path[1..]) == Lookup(Dir(docs), p);
        }
    }
  }

  /** What `site/docs` holds once the walk's result is stored there and
      `docs` is perhaps removed. */
  lemma SiteDocsPath(root: seq<Entry>, dest: seq<Entry>, removable: bool, p: seq<string>)
    ensures var copied := WithSiteDocs(root, dest);
      Lookup(Dir(if removable then Remove(copied, "docs") else copied), ["site", "docs"] + p)
        == Lookup(Dir(dest), p)
  {
    var site := match Child(root, "site") case Some(Dir(es)) => es case _ => [];
    var newSite := Put(site, "docs", Dir(dest));
    var copied := WithSiteDocs(root, dest);
    var final := if removable then Remove(copied, "docs") else copied;
    assert Child(final, "site") == Some(Dir(newSite)) by {
      PutChild(root, "site", Dir(newSite), "site");
      if removable {
        RemoveChild(copied, "docs", "site");
      }
    }
    assert Child(newSite, "docs") == Some(Dir(dest)) by {
      PutChild(site, "docs", Dir(dest), "docs");
    }
    var path := ["site", "docs"] + p;
    assert path[0] == "site" && path[1..][0] == "docs" && path[1..][1..] == p;
    assert Lookup(Dir(final), path) == Lookup(Dir(newSite), path[1..]);
  }

  /** A successful migration removes `docs` when it can, so running it again
      migrates nothing. */
  lemma MigrationIdempotent(root: seq<Entry>)
    requires Migration(root, true).outcome.Done?
    ensures Migration(Migration(root, true).root, true) == Run(Done(false, 0), Migration(root, true).root)
  {
    match Child(root, "docs") {
      case None =>
      case Some(File(_)) =>
      case Some(Dir(docs)) =>
        if HasYearDir(docs) && SiteDocs(root).Some? {
          var copied := WithSiteDocs(root, MigrateEntries(docs, SiteDocs(root).value).dest);
          RemoveChild(copied, "docs", "docs");
        }
    }
  }
}
