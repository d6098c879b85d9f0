/**
 * `BuildContext::download_addons` (src/core/addons.rs:13-62): resolve every
 * plugin or mod of the server list in order, record each in the new
 * lockfile, and delete the files the old lockfile lists that no current addon
 * resolved to. Resolution (`downloadable`) is a function parameter; instead of
 * removing files the method returns the set it would remove.
 */
module Addons {
  import opened Wrappers

  datatype AddonType = Plugin | Mod

  /** An addon as the server's configuration lists it; its source is opaque here. */
  datatype Addon = Addon(source: string)

  /** What an addon resolved to: where it comes from and the file name it is stored under. */
  datatype ResolvedFile = ResolvedFile(url: string, filename: string)

  type Entry = (Addon, ResolvedFile)

  datatype Lockfile = Lockfile(plugins: seq<Entry>, mods: seq<Entry>)

  /** What a successful run reports: the files it removed and the summary's count and plural suffix. */
  datatype Report = Report(deleted: set<string>, processed: nat, suffix: string)

  function OtherType(t: AddonType): AddonType {
    match t
    case Plugin => Mod
    case Mod => Plugin
  }

  /** The lockfile list that `t` selects. */
  function Entries(l: Lockfile, t: AddonType): seq<Entry> {
    match t
    case Plugin => l.plugins
    case Mod => l.mods
  }

  /** `l` with the list that `t` selects replaced. */
  function WithEntries(l: Lockfile, t: AddonType, es: seq<Entry>): (r: Lockfile)
    ensures Entries(r, t) == es
    ensures Entries(r, OtherType(t)) == Entries(l, OtherType(t))
  {
    match t
    case Plugin => l.(plugins := es)
    case Mod => l.(mods := es)
  }

  /** The file names recorded in `es`. */
  function Filenames(es: seq<Entry>): set<string> {
    if es == [] then {} else Filenames(es[..|es| - 1]) + {es[|es| - 1].1.filename}
  }

  /** The summary's plural suffix. */
  function PluralSuffix(n: nat): (s: string)
    ensures s == "" <==> n == 1
  {
    if n == 1 then "" else "s"
  }

  /** What the resolution loop pushed before it stopped, and the error that stopped it, if any. */
  datatype Resolution = Resolution(entries: seq<Entry>, failure: Option<string>)

  /** The resolution loop: addons in order, each paired with its file, up to the first failure. */
  function ResolveInOrder(addons: seq<Addon>, resolve: Addon -> Result<ResolvedFile, string>): Resolution {
    if addons == [] then Resolution([], None)
    else
      match resolve(addons[0])
      case Err(e) => Resolution([], Some(e))
      case Ok(file) =>
        var rest := ResolveInOrder(addons[1..], resolve);
        Resolution([(addons[0], file)] + rest.entries, rest.failure)
  }

  /**
   * The resolution loop records exactly one entry per addon, in list order,
   * each with the file its addon resolved to; it stops at the first addon that
   * fails, whose error it reports, and succeeds only when every addon resolved.
   */
  lemma {:induction false} ResolveInOrderSpec(addons: seq<Addon>, resolve: Addon -> Result<ResolvedFile, string>)
    ensures var r := ResolveInOrder(addons, resolve);
            && |r.entries| <= |addons|
            && (forall i :: 0 <= i < |r.entries| ==>
                  resolve(addons[i]).Ok? && r.entries[i] == (addons[i], resolve(addons[i]).value))
            && (r.failure.None? <==> |r.entries| == |addons|)
            && (r.failure.Some? ==> resolve(addons[|r.entries|]) == Err(r.failure.value))
  {
    if addons != [] && resolve(addons[0]).Ok? {
      var rest := ResolveInOrder(addons[1..], resolve);
      ResolveInOrderSpec(addons[1..], resolve);
      var r := ResolveInOrder(addons, resolve);
      forall i | 1 <= i < |r.entries|
        ensures resolve(addons[i]).Ok? && r.entries[i] == (addons[i], resolve(addons[i]).value)
      {
        assert r.entries[i] == rest.entries[i - 1] && addons[i] == addons[1..][i - 1];
      }
      if rest.failure.Some? {
        assert addons[|r.entries|] == addons[1..][|rest.entries|];
      }
    }
  }

  /** Resolving a list that resolves in full, then more, is resolving their concatenation. */
  lemma {:induction false} ResolveInOrderAppend(a: seq<Addon>, b: seq<Addon>,
                                                resolve: Addon -> Result<ResolvedFile, string>)
    requires ResolveInOrder(a, resolve).failure.None?
    ensures ResolveInOrder(a + b, resolve)
              == Resolution(ResolveInOrder(a, resolve).entries + ResolveInOrder(b, resolve).entries,
                            ResolveInOrder(b, resolve).failure)
  {
    if a == [] {
      assert a + b == b;
    } else {
      ResolveHead(a, resolve);
      var entry := (a[0], resolve(a[0]).value);
      var ra := ResolveInOrder(a[1..], resolve);
      ResolveInOrderAppend(a[1..], b, resolve);
      ResolveResolvedHead(a, b, resolve);
      EntriesAfterHead(entry, ra, ResolveInOrder(a[1..] + b, resolve), ResolveInOrder(b, resolve));
    }
  }

  /** An addon that resolves puts its entry in front of what the rest of the list gives. */
  lemma ResolveHead(a: seq<Addon>, resolve: Addon -> Result<ResolvedFile, string>)
    requires a != []
    ensures resolve(a[0]).Ok? ==>
              var rest := ResolveInOrder(a[1..], resolve);
              ResolveInOrder(a, resolve) == Resolution([(a[0], resolve(a[0]).value)] + rest.entries, rest.failure)
    ensures resolve(a[0]).Err? ==> ResolveInOrder(a, resolve) == Resolution([], Some(resolve(a[0]).error))
  {
  }

  /** ResolveHead for a list that continues with `b`. */
  lemma ResolveResolvedHead(a: seq<Addon>, b: seq<Addon>, resolve: Addon -> Result<ResolvedFile, string>)
    requires a != [] && resolve(a[0]).Ok?
    ensures var rest := ResolveInOrder(a[1..] + b, resolve);
            ResolveInOrder(a + b, resolve) == Resolution([(a[0], resolve(a[0]).value)] + rest.entries, rest.failure)
  {
    assert (a + b)[0] == a[0] && (a + b)[1..] == a[1..] + b;
    ResolveHead(a + b, resolve);
  }

  /** Putting the same entry in front of both sides of ResolveInOrderAppend keeps it true. */
  lemma EntriesAfterHead(entry: Entry, ra: Resolution, rab: Resolution, rb: Resolution)
    requires rab == Resolution(ra.entries + rb.entries, rb.failure)
    ensures Resolution([entry] + rab.entries, rab.failure)
              == Resolution(([entry] + ra.entries) + rb.entries, rb.failure)
  {
    assert [entry] + (ra.entries + rb.entries) == ([entry] + ra.entries) + rb.entries;
  }

  /** One turn of the resolution loop, after `i` addons resolved to `pushed`. */
  lemma ResolveNext(list: seq<Addon>, i: nat, pushed: seq<Entry>, resolve: Addon -> Result<ResolvedFile, string>)
    requires i < |list|
    requires ResolveInOrder(list[..i], resolve) == Resolution(pushed, None)
    ensures resolve(list[i]).Err? ==> ResolveInOrder(list, resolve) == Resolution(pushed, Some(resolve(list[i]).error))
    ensures resolve(list[i]).Ok? ==>
              ResolveInOrder(list[..i + 1], resolve) == Resolution(pushed + [(list[i], resolve(list[i]).value)], None)
  {
    if resolve(list[i]).Err? {
      ResolveFailsAt(list, i, pushed, resolve);
    } else {
      ResolveExtends(list, i, pushed, resolve);
    }
  }

  /** ResolveNext when the addon at `i` fails: the loop stops with its error. */
  lemma ResolveFailsAt(list: seq<Addon>, i: nat, pushed: seq<Entry>, resolve: Addon -> Result<ResolvedFile, string>)
    requires i < |list| && resolve(list[i]).Err?
    requires ResolveInOrder(list[..i], resolve) == Resolution(pushed, None)
    ensures ResolveInOrder(list, resolve) == Resolution(pushed, Some(resolve(list[i]).error))
  {
    var tail := list[i..];
    assert list[..i] + tail == list && tail[0] == list[i];
    ResolveInOrderAppend(list[..i], tail, resolve);
    ResolveHead(tail, resolve);
    assert pushed + [] == pushed;
  }

  /** ResolveNext when the addon at `i` resolves: one more entry is pushed. */
  lemma ResolveExtends(list: seq<Addon>, i: nat, pushed: seq<Entry>, resolve: Addon -> Result<ResolvedFile, string>)
    requires i < |list| && resolve(list[i]).Ok?
    requires ResolveInOrder(list[..i], resolve) == Resolution(pushed, None)
    ensures ResolveInOrder(list[..i + 1], resolve) == Resolution(pushed + [(list[i], resolve(list[i]).value)], None)
  {
    var one := [list[i]];
    assert list[..i + 1] == list[..i] + one && one[1..] == [];
    ResolveInOrderAppend(list[..i], one, resolve);
    ResolveHead(one, resolve);
  }

  lemma FilenamesSnoc(es: seq<Entry>, e: Entry)
    ensures Filenames(es + [e]) == Filenames(es) + {e.1.filename}
  {
  }

  /** A file name is recorded in `es` exactly when some entry resolved to it. */
  lemma {:induction false} FilenamesMembers(es: seq<Entry>, f: string)
    ensures f in Filenames(es) <==> exists k :: 0 <= k < |es| && es[k].1.filename == f
  {
    if es != [] {
      var init := es[..|es| - 1];
      FilenamesMembers(init, f);
      if f in Filenames(init) {
        var k :| 0 <= k < |init| && init[k].1.filename == f;
        assert es[k] == init[k];
      }
      if exists k :: 0 <= k < |es| && es[k].1.filename == f {
        var k :| 0 <= k < |es| && es[k].1.filename == f;
        if k < |es| - 1 { assert init[k] == es[k]; }
      }
    }
  }

  /**
   * The summary never counts more files than addons: two addons resolving to
   * one file name count once. With distinct file names it counts every addon.
   */
  lemma {:induction false} FilenamesCount(es: seq<Entry>)
    ensures |Filenames(es)| <= |es|
    ensures (forall i, j :: 0 <= i < j < |es| ==> es[i].1.filename != es[j].1.filename) ==> |Filenames(es)| == |es|
  {
    if es != [] {
      var init := es[..|es| - 1];
      FilenamesCount(init);
      if forall i, j :: 0 <= i < j < |es| ==> es[i].1.filename != es[j].1.filename {
        FilenamesMembers(init, es[|es| - 1].1.filename);
        assert forall i, j :: 0 <= i < j < |init| ==> init[i].1.filename != init[j].1.filename by {
          forall i, j | 0 <= i < j < |init| ensures init[i].1.filename != init[j].1.filename {
            assert init[i] == es[i] && init[j] == es[j];
          }
        }
      }
    }
  }

  /**
   * The files a run deletes: those of the old lockfile's list that no current
   * addon resolved to. A file some current addon resolved to is never deleted.
   */
  lemma StaleFilesSpareCurrent(previous: seq<Entry>, current: seq<Entry>, f: string)
    ensures f in Filenames(previous) - Filenames(current) <==>
              (exists k :: 0 <= k < |previous| && previous[k].1.filename == f) &&
              !(exists k :: 0 <= k < |current| && current[k].1.filename == f)
  {
    FilenamesMembers(previous, f);
    FilenamesMembers(current, f);
  }

  /**
   * The deletion loop: every file of `existing` that is not in `current` is
   * removed, once, and no other file is.
   */
  method DeleteStale(existing: set<string>, current: set<string>) returns (deleted: set<string>)
    ensures deleted == existing - current
    ensures deleted !! current
  {
    var pending := existing - current;
    deleted := {};
    while pending != {}
      invariant deleted + pending == existing - current
      invariant deleted !! pending
      decreases |pending|
    {
      var removed :| removed in pending;
      deleted := deleted + {removed};
      pending := pending - {removed};
    }
  }

  class BuildContext {
    /** The server's configured plugins and mods. */
    var plugins: seq<Addon>
    var mods: seq<Addon>
    /** The lockfile of the previous build, and the one this build writes. */
    var lockfile: Lockfile
    var newLockfile: Lockfile

    function ServerList(t: AddonType): seq<Addon>
      reads this
    {
      match t
      case Plugin => plugins
      case Mod => mods
    }

    /**
     * Resolve the list `addonType` selects, appending each (addon, file) to the
     * new lockfile's list of that type as it goes; on success, remove the old
     * lockfile's files of that type that no current addon resolved to. A
     * failure leaves at once, with the entries resolved before it already
     * appended and nothing removed.
     */
    method DownloadAddons(addonType: AddonType, resolve: Addon -> Result<ResolvedFile, string>)
      returns (r: Result<Report, string>)
      modifies this`newLockfile
      ensures var res := ResolveInOrder(ServerList(addonType), resolve);
              && Entries(newLockfile, addonType) == Entries(old(newLockfile), addonType) + res.entries
              && (r.Err? <==> res.failure.Some?)
              && (r.Err? ==> r.error == res.failure.value)
              && (r.Ok? ==> r.value == Report(Filenames(Entries(lockfile, addonType)) - Filenames(res.entries),
                                              |Filenames(res.entries)|,
                                              PluralSuffix(|Filenames(res.entries)|)))
      ensures Entries(newLockfile, OtherType(addonType)) == Entries(old(newLockfile), OtherType(addonType))
    {
      var list := ServerList(addonType);
      var filesList: set<string> := {};
      ghost var pushed: seq<Entry> := [];
      var i := 0;
      while i < |list|
        invariant 0 <= i <= |list|
        invariant ResolveInOrder(list[..i], resolve) == Resolution(pushed, None)
        invariant Entries(newLockfile, addonType) == Entries(old(newLockfile), addonType) + pushed
        invariant Entries(newLockfile, OtherType(addonType)) == Entries(old(newLockfile), OtherType(addonType))
        invariant filesList == Filenames(pushed)
      {
        var res := resolve(list[i]);
        ResolveNext(list, i, pushed, resolve);
        if res.Err? {
          return Err(res.error);
        }
        filesList := filesList + {res.value.filename};
        var entry := (list[i], res.value);
        newLockfile := WithEntries(newLockfile, addonType, Entries(newLockfile, addonType) + [entry]);
        FilenamesSnoc(pushed, entry);
        pushed := pushed + [entry];
        i := i + 1;
      }
      assert list[..i] == list;

      var deleted := DeleteStale(Filenames(Entries(lockfile, addonType)), filesList);
      r := Ok(Report(deleted, |filesList|, PluralSuffix(|filesList|)));
    }
  }
}
