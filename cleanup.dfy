/**
 Clearing the downloads directory before a run. Every entry of the listing
 except the `.gitignore` placeholder is considered; of those, only regular
 files are removed. A removal that fails is reported and the pass goes on
 with the next entry.
 */
module Cleanup {

  /** One directory entry: its name, and whether it is a regular file. */
  datatype Entry = Entry(name: string, isFile: bool)

  const Placeholder := ".gitignore"

  /** The pass removes this entry: not the placeholder, a regular file, and its removal does not fail. */
  predicate Removable(e: Entry, failing: set<string>) {
    e.name != Placeholder && e.isFile && e.name !in failing
  }

  /** Names the pass removes, in listing order. */
  function Removed(listing: seq<Entry>, failing: set<string>): seq<string>
  {
    if listing == [] then []
    else
      var last := listing[|listing| - 1];
      Removed(listing[..|listing| - 1], failing) + if Removable(last, failing) then [last.name] else []
  }

  /** Entries still in the directory after the pass, in listing order. */
  function Remaining(listing: seq<Entry>, failing: set<string>): seq<Entry>
  {
    if listing == [] then []
    else
      var last := listing[|listing| - 1];
      Remaining(listing[..|listing| - 1], failing) + if Removable(last, failing) then [] else [last]
  }

  /**
   `delete_existing_files` over a listing of the downloads directory, where
   `failing` names the entries whose removal raises. Returns the names it
   removed and the entries left behind.
   */
  method DeleteExistingFiles(listing: seq<Entry>, failing: set<string>) returns (deleted: seq<string>, kept: seq<Entry>)
    ensures deleted == Removed(listing, failing)
    ensures kept == Remaining(listing, failing)
  {
    deleted, kept := [], [];
    for i := 0 to |listing|
      invariant deleted == Removed(listing[..i], failing)
      invariant kept == Remaining(listing[..i], failing)
    {
      assert listing[..i + 1][..i] == listing[..i];
      var file := listing[i];
      if file.name == Placeholder {
        kept := kept + [file];
        continue;
      }
      if file.isFile {
        if file.name in failing {
          // the error is reported and the loop moves on
          kept := kept + [file];
        } else {
          deleted := deleted + [file.name];
        }
      } else {
        kept := kept + [file];
      }
    }
    assert listing[..|listing|] == listing;
  }

  // ----- What the pass promises -----

  /** Everything removed is a regular file of the listing, never the placeholder. */
  lemma {:induction false} RemovedSound(listing: seq<Entry>, failing: set<string>)
    ensures forall n :: n in Removed(listing, failing) ==>
              n != Placeholder && n !in failing &&
              exists i :: 0 <= i < |listing| && listing[i].name == n && listing[i].isFile
  {
    if listing != [] {
      var init := listing[..|listing| - 1];
      RemovedSound(init, failing);
      forall n | n in Removed(listing, failing)
        ensures exists i :: 0 <= i < |listing| && listing[i].name == n && listing[i].isFile
      {
        if n in Removed(init, failing) {
          var i :| 0 <= i < |init| && init[i].name == n && init[i].isFile;
          assert listing[i] == init[i];
        } else {
          assert listing[|listing| - 1].name == n;
        }
      }
    }
  }

  /** Every regular file other than the placeholder whose removal does not fail is removed. */
  lemma {:induction false} RemovedComplete(listing: seq<Entry>, failing: set<string>, i: nat)
    requires i < |listing| && Removable(listing[i], failing)
    ensures listing[i].name in Removed(listing, failing)
  {
    var init := listing[..|listing| - 1];
    if i < |listing| - 1 {
      assert init[i] == listing[i];
      RemovedComplete(init, failing, i);
    }
  }

  /**
   Every entry is either removed or left behind, never both: the two lists
   split the listing, and what is left is the placeholder, non-files and
   files whose removal failed.
   */
  lemma {:induction false} RemovedPartition(listing: seq<Entry>, failing: set<string>)
    ensures |Removed(listing, failing)| + |Remaining(listing, failing)| == |listing|
    ensures forall e :: e in Remaining(listing, failing) ==> e in listing && !Removable(e, failing)
    ensures forall e :: e in listing && !Removable(e, failing) ==> e in Remaining(listing, failing)
  {
    if listing != [] {
      var init := listing[..|listing| - 1];
      RemovedPartition(init, failing);
      forall e | e in listing && !Removable(e, failing)
        ensures e in Remaining(listing, failing)
      {
        if e != listing[|listing| - 1] {
          var i :| 0 <= i < |listing| && listing[i] == e;
          assert init[i] == e;
        }
      }
    }
  }

  /** A second pass over what the first left behind removes nothing, when the same removals fail again. */
  lemma {:induction false} SecondPassRemovesNothing(listing: seq<Entry>, failing: set<string>)
    ensures Removed(Remaining(listing, failing), failing) == []
    ensures Remaining(Remaining(listing, failing), failing) == Remaining(listing, failing)
  {
    if listing != [] {
      var init := listing[..|listing| - 1];
      var last := listing[|listing| - 1];
      SecondPassRemovesNothing(init, failing);
      if !Removable(last, failing) {
        var rest := Remaining(init, failing);
        assert Remaining(listing, failing) == rest + [last];
        assert (rest + [last])[..|rest|] == rest;
        assert Removed(rest + [last], failing) == Removed(rest, failing);
        assert Remaining(rest + [last], failing) == Remaining(rest, failing) + [last];
      } else {
        assert Remaining(listing, failing) == Remaining(init, failing);
      }
    }
  }
}
