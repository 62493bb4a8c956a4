/** mergeExecutorEvents: which grant a batch file belongs to, and what the merge collects. */
module BatchMerge {
  import opened Text
  import opened Contract
  import opened Crypto
  import opened Capability
  import opened Sorting
  import opened Disk
  import opened Invariant

  /** Grant IDs without a dot: one file name matches at most one, whatever order the grants are tried in. */
  lemma GrantIsDetermined(name: string, g: string, h: string)
    requires GrantName(g) && GrantName(h) && NamesGrant(name, g) && NamesGrant(name, h)
    ensures g == h
  {
    assert name[|g|] == '.' && name[|h|] == '.';
    assert g == name[..|g|] && h == name[..|h|];
  }

  lemma GrantForIs(grants: map<string, ExecutorGrant>, name: string, g: string)
    requires forall h :: h in grants ==> GrantName(h)
    requires g in grants && NamesGrant(name, g)
    ensures GrantFor(grants, name) == Some(g)
  {
    assert GrantFor(grants, name).Some?;
    GrantIsDetermined(name, g, GrantFor(grants, name).value);
  }

  // ---- All events in a directory ----

  ghost function EventsIn(e: Envelope<Batch>): multiset<Summary> {
    multiset(e.sealed.plain.events)
  }

  ghost function DirectoryEvents(directory: map<string, Envelope<Batch>>): multiset<Summary> {
    if directory == map[] then multiset{}
    else
      var name :| name in directory;
      EventsIn(directory[name]) + DirectoryEvents(directory - {name})
  }

  lemma {:induction false} DirectoryWithout(directory: map<string, Envelope<Batch>>, name: string)
    requires name in directory
    ensures DirectoryEvents(directory) == EventsIn(directory[name]) + DirectoryEvents(directory - {name})
    decreases |directory|
  {
    var first :| first in directory
                 && DirectoryEvents(directory) == EventsIn(directory[first]) + DirectoryEvents(directory - {first});
    if first != name {
      DirectoryWithout(directory - {first}, name);
      DirectoryWithout(directory - {name}, first);
      assert directory - {first} - {name} == directory - {name} - {first};
    }
  }

  lemma DirectoryGrows(directory: map<string, Envelope<Batch>>, name: string, e: Envelope<Batch>)
    requires name !in directory
    ensures DirectoryEvents(directory[name := e]) == DirectoryEvents(directory) + EventsIn(e)
  {
    DirectoryWithout(directory[name := e], name);
    assert directory[name := e] - {name} == directory;
  }

  // ---- Merging ----

  ghost function NamedEvents(directory: map<string, Envelope<Batch>>, names: seq<string>): multiset<Summary>
    requires forall name :: name in names ==> name in directory
  {
    if names == [] then multiset{}
    else NamedEvents(directory, names[..|names| - 1]) + EventsIn(directory[names[|names| - 1]])
  }

  /** Every file opens under its own grant, so the merge succeeds and collects exactly their events. */
  lemma {:induction false} MergeCollects(x: string, task: Envelope<TaskRecord>, directory: map<string, Envelope<Batch>>,
                                         names: seq<string>)
    requires TaskOK(x, task) && DirectoryOK(x, task, directory)
    requires forall name :: name in names ==> name in directory
    ensures var r := MergeFiles(task.meta.publicKey, x, task.sealed.plain.executorGrants, directory, names);
            r.Some? && multiset(r.value) == NamedEvents(directory, names)
  {
    if names != [] {
      var n := |names| - 1;
      var name := names[n];
      MergeCollects(x, task, directory, names[..n]);
      assert name in directory && BatchKnown(x, task, name, directory[name]);
      var g :| BatchOf(x, task, g, name, directory[name]);
      GrantForIs(task.sealed.plain.executorGrants, name, g);
      assert GrantName(g);
    }
  }

  lemma {:induction false} NamedIsDirectory(directory: map<string, Envelope<Batch>>, names: seq<string>)
    requires multiset(names) == multiset(directory.Keys)
    requires forall name :: name in names ==> name in directory
    ensures NamedEvents(directory, names) == DirectoryEvents(directory)
    decreases |names|
  {
    if names == [] {
      assert |multiset(directory.Keys)| == 0;
      assert directory.Keys == {};
      assert directory == map[];
    } else {
      var n := |names| - 1;
      var name := names[n];
      var rest := directory - {name};
      assert names == names[..n] + [name];
      assert multiset(names[..n]) == multiset(directory.Keys) - multiset{name};
      assert multiset(rest.Keys) == multiset(directory.Keys) - multiset{name};
      forall other | other in names[..n] ensures other in rest {
        assert other in multiset(names[..n]);
      }
      NamedIsDirectory(rest, names[..n]);
      NamedInSubdirectory(directory, rest, names[..n]);
      DirectoryWithout(directory, name);
    }
  }

  lemma {:induction false} NamedInSubdirectory(directory: map<string, Envelope<Batch>>,
                                               rest: map<string, Envelope<Batch>>, names: seq<string>)
    requires forall name :: name in names ==> name in rest && name in directory && rest[name] == directory[name]
    ensures NamedEvents(directory, names) == NamedEvents(rest, names)
  {
    if names != [] {
      NamedInSubdirectory(directory, rest, names[..|names| - 1]);
    }
  }

  /** The merge for a task whose batches are known: the owner's events, then exactly the events of all
      batch files. */
  lemma MergeExactly(cfg: Config, files: Files, owner: Owner)
    requires owner.opaqueID in files.tasks
    requires var task := files.tasks[owner.opaqueID];
             TaskOK(owner.opaqueID, task) && task.meta.publicKey == OwnerPublicKey(cfg, owner)
             && DirectoryOK(owner.opaqueID, task, Batches(files, owner.opaqueID))
    ensures var record := files.tasks[owner.opaqueID].sealed.plain;
            var merged := MergeEvents(cfg, files, owner, record);
            && merged.Ok? && record.events <= merged.value.events
            && merged.value == record.(events := merged.value.events)
            && multiset(merged.value.events[|record.events|..]) == DirectoryEvents(Batches(files, owner.opaqueID))
  {
    var x := owner.opaqueID;
    var task, directory := files.tasks[x], Batches(files, x);
    var names := Listing(directory.Keys);
    ListingMembers(directory.Keys, names);
    MergeCollects(x, task, directory, names);
    NamedIsDirectory(directory, names);
    var record := task.sealed.plain;
    var more := MergeFiles(task.meta.publicKey, x, record.executorGrants, directory, names).value;
    assert (record.events + more)[|record.events|..] == more;
  }

  // ---- Any directory ----

  ghost predicate EndsWith(name: string, ending: string) {
    |name| >= |ending| && name[|name| - |ending|..] == ending
  }

  lemma {:induction false} ExtExactly(name: string, ending: string)
    requires ending != "" && ending[0] == '.' && '.' !in ending[1..]
    ensures Ext(name) == ending <==> EndsWith(name, ending)
    decreases |ending|
  {
    var n, m := |name| - 1, |ending| - 1;
    if name != "" && m > 0 {
      assert ending[m] in ending[1..];
      assert forall c :: c in ending[..m][1..] ==> c in ending[1..];
      ExtExactly(name[..n], ending[..m]);
      assert ending == ending[..m] + [ending[m]];
      if EndsWith(name, ending) {
        assert name[n] == ending[m] && name[..n][|name| - |ending|..] == ending[..m];
      }
      if EndsWith(name[..n], ending[..m]) && name[n] == ending[m] {
        assert name[|name| - |ending|..] == name[..n][n - m..] + [name[n]];
      }
      ExtGrows(name);
    } else if name != "" {
      assert ending == ".";
      ExtGrows(name);
    }
  }

  lemma ExtGrows(name: string)
    requires name != ""
    ensures var n := |name| - 1;
            Ext(name) == (if name[n] == '.' then "." else if Ext(name[..n]) == "" then ""
                          else Ext(name[..n]) + [name[n]])
  {
  }

  /** A batch of these events, sealed for the recorded grant that the file name starts with. */
  ghost predicate Carries(publicKey: string, opaqueID: string, grants: map<string, ExecutorGrant>, name: string,
                          e: Envelope<Batch>, events: seq<Summary>) {
    exists g :: && g in grants && g + "." <= name && e.meta.recordKind == "executor-events"
                && e.meta.opaqueID == opaqueID + "." + g && e.meta.publicKey == publicKey
                && OpenRecord(e, grants[g].appendKey) == Some(Batch(g, events))
  }

  ghost function Joined(contents: string -> seq<Summary>, names: seq<string>): seq<Summary> {
    if names == [] then []
    else Joined(contents, names[..|names| - 1])
         + if EndsWith(names[|names| - 1], ".are") then contents(names[|names| - 1]) else []
  }

  lemma BatchOpens(publicKey: string, opaqueID: string, grants: map<string, ExecutorGrant>, name: string,
                   e: Envelope<Batch>, events: seq<Summary>)
    requires forall g :: g in grants ==> GrantName(g)
    ensures Carries(publicKey, opaqueID, grants, name, e, events)
            <==> var g := GrantFor(grants, name);
                 g.Some? && OpenBatch(publicKey, opaqueID, g.value, grants[g.value], e) == Some(events)
  {
    forall g | g in grants && g + "." <= name ensures GrantFor(grants, name) == Some(g) {
      assert NamesGrant(name, g);
      GrantForIs(grants, name, g);
    }
  }

  /** Adding up, one name after the other. */
  lemma {:induction false} JoinsUp(merge: nat -> Option<seq<Summary>>, good: string -> bool,
                                   contents: string -> seq<Summary>, names: seq<string>, n: nat)
    requires n <= |names| && merge(0) == Some([])
    requires forall k: nat :: k < |names| ==>
               merge(k + 1) == if merge(k).None? then None
                               else if !EndsWith(names[k], ".are") then merge(k)
                               else if good(names[k]) then Some(merge(k).value + contents(names[k])) else None
    ensures merge(n) == if forall k :: 0 <= k < n && EndsWith(names[k], ".are") ==> good(names[k])
                        then Some(Joined(contents, names[..n])) else None
  {
    if n > 0 {
      var k: nat := n - 1;
      JoinsUp(merge, good, contents, names, k);
      assert names[..n][..k] == names[..k] && names[..n][k] == names[k];
      var before := Joined(contents, names[..k]);
      assert Joined(contents, names[..n]) == if EndsWith(names[k], ".are") then before + contents(names[k]) else before;
      assert merge(k + 1) == merge(n);
    }
  }

  ghost function MergeUpTo(publicKey: string, opaqueID: string, grants: map<string, ExecutorGrant>,
                           directory: map<string, Envelope<Batch>>, names: seq<string>): nat -> Option<seq<Summary>>
    requires forall name :: name in names ==> name in directory
  {
    (k: nat) => if k <= |names| then MergeFiles(publicKey, opaqueID, grants, directory, names[..k]) else None
  }

  /** What a file carries, if it is a batch of its grant. */
  ghost predicate ContentOf(publicKey: string, opaqueID: string, grants: map<string, ExecutorGrant>, name: string,
                            e: Envelope<Batch>, events: seq<Summary>) {
    (exists more :: Carries(publicKey, opaqueID, grants, name, e, more)) ==>
      Carries(publicKey, opaqueID, grants, name, e, events)
  }

  /** The merge of any directory: files with another ending are passed over, and the others give their events
      in the order of the names, if each is a batch of its grant; one that is not makes the merge fail. */
  lemma MergeOfAnyDirectory(publicKey: string, opaqueID: string, grants: map<string, ExecutorGrant>,
                            directory: map<string, Envelope<Batch>>, names: seq<string>,
                            contents: string -> seq<Summary>)
    requires (forall g :: g in grants ==> GrantName(g)) && forall name :: name in names ==> name in directory
    requires forall name :: name in names ==>
               ContentOf(publicKey, opaqueID, grants, name, directory[name], contents(name))
    ensures MergeFiles(publicKey, opaqueID, grants, directory, names)
            == if forall k :: 0 <= k < |names| && EndsWith(names[k], ".are") ==>
                    Carries(publicKey, opaqueID, grants, names[k], directory[names[k]], contents(names[k]))
               then Some(Joined(contents, names)) else None
  {
    var merge := MergeUpTo(publicKey, opaqueID, grants, directory, names);
    var good := (name: string) => name in directory
                && Carries(publicKey, opaqueID, grants, name, directory[name], contents(name));
    forall k: nat | k < |names|
      ensures merge(k + 1) == if merge(k).None? then None
                              else if !EndsWith(names[k], ".are") then merge(k)
                              else if good(names[k]) then Some(merge(k).value + contents(names[k])) else None {
      assert names[..k + 1][..k] == names[..k];
      MergeNext(publicKey, opaqueID, grants, directory, names[..k + 1], contents(names[k]));
    }
    JoinsUp(merge, good, contents, names, |names|);
    assert names[..|names|] == names;
  }

  lemma MergeNext(publicKey: string, opaqueID: string, grants: map<string, ExecutorGrant>,
                  directory: map<string, Envelope<Batch>>, names: seq<string>, events: seq<Summary>)
    requires (forall g :: g in grants ==> GrantName(g)) && forall name :: name in names ==> name in directory
    requires names != []
    requires var name := names[|names| - 1];
             ContentOf(publicKey, opaqueID, grants, name, directory[name], events)
    ensures var name, before := names[|names| - 1],
                                MergeFiles(publicKey, opaqueID, grants, directory, names[..|names| - 1]);
            MergeFiles(publicKey, opaqueID, grants, directory, names)
            == if before.None? then None
               else if !EndsWith(name, ".are") then before
               else if Carries(publicKey, opaqueID, grants, name, directory[name], events)
               then Some(before.value + events) else None
  {
    var name := names[|names| - 1];
    ExtExactly(name, ".are");
    forall more ensures Carries(publicKey, opaqueID, grants, name, directory[name], more)
                    <==> var g := GrantFor(grants, name);
                         g.Some? && OpenBatch(publicKey, opaqueID, g.value, grants[g.value], directory[name])
                                    == Some(more) {
      BatchOpens(publicKey, opaqueID, grants, name, directory[name], more);
    }
  }
}
