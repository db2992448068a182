/** The apply transaction: gated, patched, rolled back and replayed at most once. */
module ApplyTransaction {
  // Whole groups move through it, and every fetched row is accounted for.  How a single file is edited and
  // what the gates look at are parameters.

  import opened Text

  type Id = string
  type Group = string
  type Path = string
  type Files = map<Path, string>

  /** A fetched row; the rest of it is only looked at by the gates. */
  datatype Row = Row(id: Id, group: Option<Group>, content: nat)

  /** What a passed gate makes of one row. */
  datatype Body = Body(file: Path, original: string, replacement: string, op: Option<string>)

  datatype Patch = Patch(id: Id, group: Group, body: Body)

  datatype Verdict = Drifts | NeedsReview | Patchable(make: Row -> Body)

  datatype Outcome = Done | NeedsHuman | ValidationError

  /** What editing one file yields for each patch on it, and the edited text. */
  datatype Decision = Decision(outcome: Id -> Outcome, text: string)

  type Gate = (seq<Row>, Files) -> Verdict
  type Editor = (Files, Path, seq<Patch>) -> Decision

  /** A row or patch as the buckets see it. */
  datatype Entry = Entry(id: Id, group: Group)

  function Key(r: Row): Group {
    match r.group case Some(g) => if g == "" then "solo:" + r.id else g case None => "solo:" + r.id
  }

  function EntryOf(r: Row): Entry {
    Entry(r.id, Key(r))
  }

  function PatchEntry(p: Patch): Entry {
    Entry(p.id, p.group)
  }

  function Entries(rows: seq<Row>): seq<Entry> {
    seq(|rows|, k requires 0 <= k < |rows| => EntryOf(rows[k]))
  }

  function PatchEntries(patches: seq<Patch>): seq<Entry> {
    seq(|patches|, k requires 0 <= k < |patches| => PatchEntry(patches[k]))
  }

  predicate Edits(p: Patch) {
    p.body.original != p.body.replacement || p.body.op !in {None, Some("")}
  }

  // ---- Grouping, in order of first appearance ------------------------------------------------------------

  function Members(rows: seq<Row>, key: Group): seq<Row> {
    if rows == [] then []
    else Members(rows[..|rows| - 1], key) + if Key(rows[|rows| - 1]) == key then [rows[|rows| - 1]] else []
  }

  function OnFile(patches: seq<Patch>, file: Path): seq<Patch> {
    if patches == [] then []
    else
      OnFile(patches[..|patches| - 1], file) +
      if patches[|patches| - 1].body.file == file then [patches[|patches| - 1]] else []
  }

  function OfGroup(patches: seq<Patch>, group: Group): seq<Patch> {
    if patches == [] then []
    else
      OfGroup(patches[..|patches| - 1], group) +
      if patches[|patches| - 1].group == group then [patches[|patches| - 1]] else []
  }

  function GroupKeys(rows: seq<Row>): seq<Group> {
    if rows == [] then []
    else
      var keys := GroupKeys(rows[..|rows| - 1]);
      if Key(rows[|rows| - 1]) in keys then keys else keys + [Key(rows[|rows| - 1])]
  }

  function FileOrder(patches: seq<Patch>): seq<Path> {
    if patches == [] then []
    else
      var files := FileOrder(patches[..|patches| - 1]);
      if patches[|patches| - 1].body.file in files then files else files + [patches[|patches| - 1].body.file]
  }

  function GroupOrder(patches: seq<Patch>): seq<Group> {
    if patches == [] then []
    else
      var groups := GroupOrder(patches[..|patches| - 1]);
      if patches[|patches| - 1].group in groups then groups else groups + [patches[|patches| - 1].group]
  }

  /** The rows of the given groups. */
  function Among(rows: seq<Row>, keys: set<Group>): seq<Row> {
    if rows == [] then []
    else Among(rows[..|rows| - 1], keys) + if Key(rows[|rows| - 1]) in keys then [rows[|rows| - 1]] else []
  }

  // ---- Editing files ---------------------------------------------------------------------------------------

  datatype Edited = Edited(results: map<Id, Outcome>, text: string)

  /** `apply_file_patches`: one file, and nothing is written when any patch on it is ambiguous. */
  function ApplyFilePatches(edit: Editor, files: Files, file: Path, members: seq<Patch>): Edited
    requires file in files
  {
    var d := edit(files, file, members);
    var results := map p | p in members :: p.id := d.outcome(p.id);
    Edited(results, if NeedsHuman in results.Values then files[file] else d.text)
  }

  datatype Round = Round(files: Files, results: map<Id, Outcome>)

  /** The files edited in order, each with all the patches on it. */
  function ApplyInOrder(edit: Editor, files: Files, order: seq<Path>, patches: seq<Patch>): (r: Round)
    requires forall f :: f in order ==> f in files
    ensures r.files.Keys == files.Keys
  {
    if order == [] then Round(files, map[])
    else
      var r := ApplyInOrder(edit, files, order[..|order| - 1], patches);
      var file := order[|order| - 1];
      var e := ApplyFilePatches(edit, r.files, file, OnFile(patches, file));
      Round(r.files[file := e.text], r.results + e.results)
  }

  lemma ApplyNone(edit: Editor, files: Files, order: seq<Path>, patches: seq<Patch>)
    requires forall f :: f in order ==> f in files
    ensures ApplyInOrder(edit, files, order[..0], patches) == Round(files, map[])
  {
  }

  /** One more file. */
  lemma ApplyNext(edit: Editor, files: Files, order: seq<Path>, k: nat, patches: seq<Patch>)
    requires k < |order| && forall f :: f in order ==> f in files
    ensures var r := ApplyInOrder(edit, files, order[..k], patches);
            var e := ApplyFilePatches(edit, r.files, order[k], OnFile(patches, order[k]));
            ApplyInOrder(edit, files, order[..k + 1], patches) ==
            Round(r.files[order[k] := e.text], r.results + e.results)
  {
    hide ApplyFilePatches, OnFile;
    assert order[..k + 1][..k] == order[..k] && order[..k + 1][k] == order[k];
  }

  /** The tree that has precisely these patches applied. */
  function Patched(edit: Editor, files: Files, patches: seq<Patch>): Files
    requires Placed(files, patches)
  {
    OrderIsPlaced(files, patches);
    ApplyInOrder(edit, files, FileOrder(patches), patches).files
  }

  predicate Placed(files: Files, patches: seq<Patch>) {
    forall p :: p in patches ==> p.body.file in files
  }

  lemma {:induction false} FileOrderMembers(patches: seq<Patch>)
    ensures forall f :: f in FileOrder(patches) <==> exists p :: p in patches && p.body.file == f
    decreases |patches|
  {
    if patches != [] {
      var before, last := patches[..|patches| - 1], patches[|patches| - 1];
      FileOrderMembers(before);
      assert patches == before + [last];
    }
  }

  lemma OrderIsPlaced(files: Files, patches: seq<Patch>)
    requires Placed(files, patches)
    ensures forall f :: f in FileOrder(patches) ==> f in files
  {
    FileOrderMembers(patches);
  }

  lemma {:induction false} GroupOrderMembers(patches: seq<Patch>)
    ensures forall g :: g in GroupOrder(patches) <==> exists p :: p in patches && p.group == g
    decreases |patches|
  {
    if patches != [] {
      var before, last := patches[..|patches| - 1], patches[|patches| - 1];
      GroupOrderMembers(before);
      assert patches == before + [last];
    }
  }

  lemma {:induction false} OfGroupMembers(patches: seq<Patch>, group: Group)
    ensures forall p :: p in OfGroup(patches, group) <==> p in patches && p.group == group
    decreases |patches|
  {
    if patches != [] {
      var before, last := patches[..|patches| - 1], patches[|patches| - 1];
      OfGroupMembers(before, group);
      assert patches == before + [last];
    }
  }

  lemma {:induction false} OnFileMembers(patches: seq<Patch>, file: Path)
    ensures forall p :: p in OnFile(patches, file) <==> p in patches && p.body.file == file
    decreases |patches|
  {
    if patches != [] {
      var before, last := patches[..|patches| - 1], patches[|patches| - 1];
      OnFileMembers(before, file);
      assert patches == before + [last];
    }
  }

  lemma {:induction false} FilesDistinct(patches: seq<Patch>)
    ensures forall i, j :: 0 <= i < j < |FileOrder(patches)| ==> FileOrder(patches)[i] != FileOrder(patches)[j]
    decreases |patches|
  {
    if patches != [] {
      FilesDistinct(patches[..|patches| - 1]);
    }
  }

  predicate SeenBefore(patches: seq<Patch>, m: nat, file: Path)
    requires m <= |patches|
  {
    exists l :: 0 <= l < m && patches[l].body.file == file
  }

  lemma SeenInAll(patches: seq<Patch>, file: Path)
    requires exists p :: p in patches && p.body.file == file
    ensures SeenBefore(patches, |patches|, file)
  {
    var p :| p in patches && p.body.file == file;
    var l :| 0 <= l < |patches| && patches[l] == p;
  }

  lemma SeenEarlier(patches: seq<Patch>, m: nat, file: Path)
    requires m < |patches| && SeenBefore(patches[..|patches| - 1], m, file)
    ensures SeenBefore(patches, m, file)
  {
    var before := patches[..|patches| - 1];
    var l :| 0 <= l < m && before[l].body.file == file;
    assert patches[l] == before[l];
  }

  /** Files come in the order of their first patches. */
  lemma {:induction false} FirstSeenFirst(patches: seq<Patch>, i: nat, j: nat, m: nat)
    requires i < j < |FileOrder(patches)| && m < |patches| && patches[m].body.file == FileOrder(patches)[j]
    ensures SeenBefore(patches, m, FileOrder(patches)[i])
    decreases |patches|
  {
    hide SeenBefore;
    var before, n := patches[..|patches| - 1], |patches| - 1;
    var fewer, order := FileOrder(before), FileOrder(patches);
    FileOrderMembers(before);
    assert i < |fewer| && order[i] == fewer[i];
    if m < n {
      assert before[m] == patches[m] && before[m] in before;
      assert j < |fewer| && order[j] == fewer[j];
      FirstSeenFirst(before, i, j, m);
    } else {
      assert fewer[i] in fewer;
      SeenInAll(before, fewer[i]);
    }
    SeenEarlier(patches, m, fewer[i]);
  }

  /** The files of the others stay as they are. */
  lemma {:induction false} OthersUntouched(edit: Editor, files: Files, order: seq<Path>, patches: seq<Patch>)
    requires forall f :: f in order ==> f in files
    ensures forall f :: f in files && f !in order ==>
              ApplyInOrder(edit, files, order, patches).files[f] == files[f]
    decreases |order|
  {
    if order != [] {
      OthersUntouched(edit, files, order[..|order| - 1], patches);
      assert order == order[..|order| - 1] + [order[|order| - 1]];
    }
  }

  /** The tree in which the `k`-th file is edited. */
  function TreeFor(edit: Editor, files: Files, order: seq<Path>, patches: seq<Patch>, k: nat): Files
    requires (forall f :: f in order ==> f in files) && k < |order|
  {
    ApplyInOrder(edit, files, order[..k], patches).files
  }

  predicate Distinct(order: seq<Path>) {
    forall i, j :: 0 <= i < j < |order| ==> order[i] != order[j]
  }

  /**
   Each file in turn is edited as it was, with all the patches on it: it becomes the edited text, unless one of them
   was ambiguous; then it stays as it was.
   */
  lemma {:induction false} FileIsWritten(edit: Editor, files: Files, order: seq<Path>, patches: seq<Patch>, k: nat)
    requires (forall f :: f in order ==> f in files) && k < |order| && Distinct(order)
    ensures var f, tree := order[k], TreeFor(edit, files, order, patches, k);
            var d := edit(tree, f, OnFile(patches, f));
            && tree[f] == files[f]
            && ApplyInOrder(edit, files, order, patches).files[f] ==
               if exists p :: p in patches && p.body.file == f && d.outcome(p.id) == NeedsHuman then files[f]
               else d.text
    decreases |order|
  {
    hide OnFile, ApplyFilePatches;
    var before, last := order[..|order| - 1], order[|order| - 1];
    if k < |order| - 1 {
      assert before[..k] == order[..k];
      FileIsWritten(edit, files, before, patches, k);
    } else {
      assert order[..k] == before && last !in before;
      OthersUntouched(edit, files, before, patches);
      OneFile(edit, ApplyInOrder(edit, files, before, patches).files, last, patches);
    }
  }

  /** Every patch has the outcome of the edit of its file, if no patch on another file has its id. */
  lemma {:induction false} OutcomeIsGiven(edit: Editor, files: Files, order: seq<Path>, patches: seq<Patch>, k: nat,
                                          p: Patch)
    requires (forall f :: f in order ==> f in files) && k < |order| && Distinct(order)
    requires p in patches && p.body.file == order[k]
    requires forall q :: q in patches && q.id == p.id ==> q.body.file == p.body.file
    ensures var d := edit(TreeFor(edit, files, order, patches, k), order[k], OnFile(patches, order[k]));
            var results := ApplyInOrder(edit, files, order, patches).results;
            p.id in results && results[p.id] == d.outcome(p.id)
    decreases |order|
  {
    hide OnFile, ApplyFilePatches;
    var before, last := order[..|order| - 1], order[|order| - 1];
    OutcomesOf(edit, ApplyInOrder(edit, files, before, patches).files, last, patches);
    if k < |order| - 1 {
      assert before[..k] == order[..k];
      OutcomeIsGiven(edit, files, before, patches, k, p);
    } else {
      assert order[..k] == before;
      OneFile(edit, ApplyInOrder(edit, files, before, patches).files, last, patches);
    }
  }

  /** The same for the tree that has the patches applied. */
  lemma FileIsPatched(edit: Editor, files: Files, patches: seq<Patch>, k: nat)
    requires Placed(files, patches) && k < |FileOrder(patches)|
    ensures forall f :: f in FileOrder(patches) ==> f in files
    ensures var f, tree := FileOrder(patches)[k], TreeFor(edit, files, FileOrder(patches), patches, k);
            var d := edit(tree, f, OnFile(patches, f));
            && tree[f] == files[f]
            && Patched(edit, files, patches)[f] ==
               if exists p :: p in patches && p.body.file == f && d.outcome(p.id) == NeedsHuman then files[f]
               else d.text
  {
    hide OnFile, ApplyInOrder, TreeFor;
    OrderIsPlaced(files, patches);
    FilesDistinct(patches);
    FileIsWritten(edit, files, FileOrder(patches), patches, k);
  }

  lemma OutcomesOf(edit: Editor, files: Files, file: Path, patches: seq<Patch>)
    requires file in files
    ensures ApplyFilePatches(edit, files, file, OnFile(patches, file)).results.Keys ==
            set p | p in patches && p.body.file == file :: p.id
  {
    hide OnFile;
    OnFileMembers(patches, file);
  }

  lemma OneFile(edit: Editor, files: Files, file: Path, patches: seq<Patch>)
    requires file in files
    ensures var d, e := edit(files, file, OnFile(patches, file)),
                        ApplyFilePatches(edit, files, file, OnFile(patches, file));
            && e.text == (if exists p :: p in patches && p.body.file == file && d.outcome(p.id) == NeedsHuman
                          then files[file] else d.text)
            && forall p :: p in patches && p.body.file == file ==>
                 p.id in e.results && e.results[p.id] == d.outcome(p.id)
  {
    hide OnFile;
    OnFileMembers(patches, file);
    var members := OnFile(patches, file);
    var d, e := edit(files, file, members), ApplyFilePatches(edit, files, file, members);
    if p :| p in patches && p.body.file == file && d.outcome(p.id) == NeedsHuman {
      assert p in members && e.results[p.id] == NeedsHuman;
    }
  }

  /** Every patch of the files handled so far has a result. */
  lemma {:induction false} EveryPatchHasResult(edit: Editor, files: Files, order: seq<Path>, patches: seq<Patch>)
    requires forall f :: f in order ==> f in files
    ensures forall p :: p in patches && p.body.file in order ==>
            p.id in ApplyInOrder(edit, files, order, patches).results
    decreases |order|
  {
    if order != [] {
      var before, file := order[..|order| - 1], order[|order| - 1];
      EveryPatchHasResult(edit, files, before, patches);
      OnFileMembers(patches, file);
      assert order == before + [file];
    }
  }

  // ---- A group on its own --------------------------------------------------------------------------------

  /** The scratch tree a group is measured in: its own files and the schemas, as they were. */
  function Scratch(files: Files, own: seq<Path>, schemas: set<Path>): Files {
    map f | f in files && (f in own || f in schemas) :: files[f]
  }

  /** The group's edits, alone, change at least one source byte. */
  predicate ChangesAlone(edit: Editor, files: Files, members: seq<Patch>, schemas: set<Path>)
    requires Placed(files, members)
  {
    FileOrderMembers(members);
    var order := FileOrder(members);
    var after := ApplyInOrder(edit, Scratch(files, order, schemas), order, members).files;
    exists f :: f in order && after[f] != files[f]
  }

  /** The group claims to change something. */
  predicate Claims(members: seq<Patch>) {
    exists k :: 0 <= k < |members| && Edits(members[k])
  }

  /** A group claims a change as soon as one of its patches has another text, or an operation. */
  lemma ClaimsIsExact(patches: seq<Patch>, group: Group)
    ensures Claims(OfGroup(patches, group)) <==>
            exists p :: p in patches && p.group == group &&
                        (p.body.original != p.body.replacement || p.body.op !in {None, Some("")})
  {
    hide OfGroup;
    OfGroupMembers(patches, group);
    var members := OfGroup(patches, group);
    if p :| p in patches && p.group == group &&
            (p.body.original != p.body.replacement || p.body.op !in {None, Some("")})
    {
      var k :| 0 <= k < |members| && members[k] == p;
      assert Edits(members[k]);
    }
  }

  /** A claim that came true: the group changed a byte on its own, and one of its files in the tree. */
  predicate Effective(edit: Editor, files: Files, patches: seq<Patch>, group: Group, schemas: set<Path>)
    requires Placed(files, patches)
  {
    OfGroupMembers(patches, group);
    var members := OfGroup(patches, group);
    && ChangesAlone(edit, files, members, schemas)
    && exists k :: 0 <= k < |members| && Touched(edit, files, patches, members[k].body.file)
  }

  predicate Touched(edit: Editor, files: Files, patches: seq<Patch>, file: Path)
    requires Placed(files, patches)
  {
    var after := Patched(edit, files, patches);
    file in after && file in files && after[file] != files[file]
  }

  /** The plain results, before the check for silent groups. */
  function Results(edit: Editor, files: Files, patches: seq<Patch>): map<Id, Outcome>
    requires Placed(files, patches)
  {
    OrderIsPlaced(files, patches);
    ApplyInOrder(edit, files, FileOrder(patches), patches).results
  }

  /** Every patch on the file succeeded. */
  predicate Succeeded(edit: Editor, files: Files, patches: seq<Patch>, file: Path)
    requires Placed(files, patches)
  {
    forall p :: p in patches && p.body.file == file ==>
      p.id in Results(edit, files, patches) && Results(edit, files, patches)[p.id] == Done
  }

  /**
   The group claims a change, and either makes none on its own, or all its files were written without a
   failure and came out as they were.
   */
  predicate Silent(edit: Editor, files: Files, patches: seq<Patch>, group: Group, schemas: set<Path>)
    requires Placed(files, patches)
  {
    OfGroupMembers(patches, group);
    var members := OfGroup(patches, group);
    && Claims(members)
    && (!ChangesAlone(edit, files, members, schemas) ||
        forall p :: p in members ==>
          Succeeded(edit, files, patches, p.body.file) && !Touched(edit, files, patches, p.body.file))
  }

  /** The successes of silent groups are handed to a human. */
  ghost function Demoted(plain: map<Id, Outcome>, patches: seq<Patch>, silent: set<Group>): map<Id, Outcome> {
    map id | id in plain ::
      if plain[id] == Done && exists p :: p in patches && p.id == id && p.group in silent then NeedsHuman else plain[id]
  }

  ghost function FinalResults(edit: Editor, files: Files, patches: seq<Patch>, schemas: set<Path>): map<Id, Outcome>
    requires Placed(files, patches)
  {
    Demoted(Results(edit, files, patches), patches,
            set g | g in GroupOrder(patches) && Silent(edit, files, patches, g, schemas))
  }

  predicate AllDone(patches: seq<Patch>, results: map<Id, Outcome>) {
    forall p :: p in patches ==> p.id in results && results[p.id] == Done
  }

  /** Every patch succeeds, and every group that claims a change makes one. */
  predicate CleanRun(edit: Editor, files: Files, patches: seq<Patch>, schemas: set<Path>)
    requires Placed(files, patches)
  {
    && AllDone(patches, Results(edit, files, patches))
    && forall group :: group in GroupOrder(patches) && Claims(OfGroup(patches, group)) ==>
         Effective(edit, files, patches, group, schemas)
  }

  /** In a clean run every group with a patch that has another text, or an operation, makes a change. */
  lemma CleanIsEffective(edit: Editor, files: Files, patches: seq<Patch>, schemas: set<Path>)
    requires Placed(files, patches) && CleanRun(edit, files, patches, schemas)
    ensures forall p :: p in patches && (p.body.original != p.body.replacement || p.body.op !in {None, Some("")}) ==>
              Effective(edit, files, patches, p.group, schemas)
  {
    hide Effective, Claims, OfGroup, GroupOrder;
    GroupOrderMembers(patches);
    forall p | p in patches && (p.body.original != p.body.replacement || p.body.op !in {None, Some("")})
      ensures Effective(edit, files, patches, p.group, schemas)
    {
      ClaimsIsExact(patches, p.group);
    }
  }

  /** A run without a failure is a clean one. */
  lemma CleanIsAllDone(edit: Editor, files: Files, patches: seq<Patch>, schemas: set<Path>)
    requires Placed(files, patches)
    ensures AllDone(patches, FinalResults(edit, files, patches, schemas)) <==> CleanRun(edit, files, patches, schemas)
  {
    hide ChangesAlone, FileOrder, Claims, OfGroup, GroupOrder, Results, Touched, Silent, Effective;
    GroupOrderMembers(patches);
    var plain := Results(edit, files, patches);
    var silent := set g | g in GroupOrder(patches) && Silent(edit, files, patches, g, schemas);
    if AllDone(patches, plain) {
      forall g | g in GroupOrder(patches)
        ensures Silent(edit, files, patches, g, schemas) <==>
                Claims(OfGroup(patches, g)) && !Effective(edit, files, patches, g, schemas)
      {
        SilentIsIneffective(edit, files, patches, g, schemas);
      }
      forall g | g in silent ensures exists p :: p in patches && p.id in Demoted(plain, patches, silent) &&
                                       Demoted(plain, patches, silent)[p.id] != Done
      {
        var p :| p in patches && p.group == g;
      }
    }
  }

  lemma SilentIsIneffective(edit: Editor, files: Files, patches: seq<Patch>, group: Group, schemas: set<Path>)
    requires Placed(files, patches) && AllDone(patches, Results(edit, files, patches))
    ensures Silent(edit, files, patches, group, schemas) <==>
            Claims(OfGroup(patches, group)) && !Effective(edit, files, patches, group, schemas)
  {
    hide ChangesAlone, Claims, OfGroup, Results, Touched;
    OfGroupMembers(patches, group);
  }

  // ---- Accounts ----------------------------------------------------------------------------------------------

  function Groups(entries: seq<Entry>): set<Group> {
    set e | e in entries :: e.group
  }

  lemma {:induction false} AmongOneMore(rows: seq<Row>, keys: set<Group>, key: Group)
    requires key !in keys
    ensures multiset(Entries(Among(rows, keys + {key}))) ==
            multiset(Entries(Among(rows, keys))) + multiset(Entries(Members(rows, key)))
    decreases |rows|
  {
    if rows != [] {
      hide Entries, Among, Members;
      var before, last := rows[..|rows| - 1], rows[|rows| - 1];
      AmongOneMore(before, keys, key);
      AmongLast(rows, keys);
      AmongLast(rows, keys + {key});
      MembersLast(rows, key);
      EntriesSplit(Among(before, keys + {key}), last);
      EntriesSplit(Among(before, keys), last);
      EntriesSplit(Members(before, key), last);
    }
  }

  lemma AmongLast(rows: seq<Row>, keys: set<Group>)
    requires rows != []
    ensures var before, last := rows[..|rows| - 1], rows[|rows| - 1];
            Among(rows, keys) == if Key(last) in keys then Among(before, keys) + [last] else Among(before, keys)
  {
  }

  lemma MembersLast(rows: seq<Row>, key: Group)
    requires rows != []
    ensures var before, last := rows[..|rows| - 1], rows[|rows| - 1];
            Members(rows, key) == if Key(last) == key then Members(before, key) + [last] else Members(before, key)
  {
  }

  lemma EntriesSplit(rows: seq<Row>, last: Row)
    ensures multiset(Entries(rows + [last])) == multiset(Entries(rows)) + multiset{EntryOf(last)}
  {
    assert Entries(rows + [last]) == Entries(rows) + [EntryOf(last)];
  }

  lemma {:induction false} AmongNone(rows: seq<Row>)
    ensures Among(rows, {}) == []
    decreases |rows|
  {
    if rows != [] {
      AmongNone(rows[..|rows| - 1]);
    }
  }

  lemma {:induction false} AmongAll(rows: seq<Row>, keys: set<Group>)
    requires forall r :: r in rows ==> Key(r) in keys
    ensures Among(rows, keys) == rows
    decreases |rows|
  {
    if rows != [] {
      AmongAll(rows[..|rows| - 1], keys);
      assert rows == rows[..|rows| - 1] + [rows[|rows| - 1]];
    }
  }

  lemma {:induction false} GroupKeyMembers(rows: seq<Row>)
    ensures forall r :: r in rows ==> Key(r) in GroupKeys(rows)
    ensures forall i, j :: 0 <= i < j < |GroupKeys(rows)| ==> GroupKeys(rows)[i] != GroupKeys(rows)[j]
    decreases |rows|
  {
    if rows != [] {
      GroupKeyMembers(rows[..|rows| - 1]);
      assert rows == rows[..|rows| - 1] + [rows[|rows| - 1]];
    }
  }

  lemma {:induction false} MembersHaveKey(rows: seq<Row>, key: Group)
    ensures forall k :: 0 <= k < |Members(rows, key)| ==> Key(Members(rows, key)[k]) == key
    decreases |rows|
  {
    if rows != [] {
      MembersHaveKey(rows[..|rows| - 1], key);
    }
  }

  /** The patches of a group that passed its gates. */
  function MakePatches(rows: seq<Row>, make: Row -> Body): seq<Patch> {
    seq(|rows|, k requires 0 <= k < |rows| => Patch(rows[k].id, Key(rows[k]), make(rows[k])))
  }

  /** The buckets a row can end up in. */
  datatype Buckets = Buckets(drift: seq<Entry>, needsHuman: seq<Entry>, patches: seq<Patch>)

  /** The buckets hold exactly these rows, and no group is split between them. */
  predicate Accounts(b: Buckets, rows: seq<Row>) {
    && multiset(PatchEntries(b.patches)) + multiset(b.drift) + multiset(b.needsHuman) == multiset(Entries(rows))
    && Apart(b)
  }

  /** A row that names no group, or the empty one, is a group of its own. */
  predicate GroupedAs(e: Entry, r: Row) {
    e.id == r.id && e.group == if r.group.Some? && r.group.value != "" then r.group.value else "solo:" + r.id
  }

  /** Every entry is one of the rows, in its group. */
  predicate AreRows(entries: seq<Entry>, rows: seq<Row>) {
    forall e :: e in entries ==> exists r :: r in rows && GroupedAs(e, r)
  }

  lemma AccountedAreRows(b: Buckets, rows: seq<Row>)
    requires Accounts(b, rows)
    ensures AreRows(b.drift, rows) && AreRows(b.needsHuman, rows) && AreRows(PatchEntries(b.patches), rows)
  {
    hide PatchEntries, Apart;
    var all := Entries(rows);
    forall e | e in b.drift || e in b.needsHuman || e in PatchEntries(b.patches)
      ensures exists r :: r in rows && GroupedAs(e, r)
    {
      assert e in multiset(PatchEntries(b.patches)) + multiset(b.drift) + multiset(b.needsHuman);
      assert e in multiset(all) && e in all;
      var k :| 0 <= k < |all| && all[k] == e;
      assert rows[k] in rows && GroupedAs(e, rows[k]);
    }
  }

  predicate Apart(b: Buckets) {
    && Groups(b.drift) !! Groups(b.needsHuman) && Groups(b.drift) !! Groups(PatchEntries(b.patches))
    && Groups(b.needsHuman) !! Groups(PatchEntries(b.patches))
  }

  predicate Within(b: Buckets, keys: set<Group>) {
    Groups(b.drift) <= keys && Groups(b.needsHuman) <= keys && Groups(PatchEntries(b.patches)) <= keys
  }

  /** One more group goes, whole, into one bucket. */
  lemma GroupAdded(b: Buckets, c: Buckets, rows: seq<Row>, keys: set<Group>, key: Group, entries: seq<Entry>)
    requires key !in keys && Within(b, keys) && Apart(b)
    requires multiset(PatchEntries(b.patches)) + multiset(b.drift) + multiset(b.needsHuman) ==
             multiset(Entries(Among(rows, keys)))
    requires entries == Entries(Members(rows, key))
    requires || c == b.(drift := b.drift + entries) || c == b.(needsHuman := b.needsHuman + entries)
             || (c.drift == b.drift && c.needsHuman == b.needsHuman &&
                 PatchEntries(c.patches) == PatchEntries(b.patches) + entries)
    ensures Within(c, keys + {key}) && Apart(c)
    ensures multiset(PatchEntries(c.patches)) + multiset(c.drift) + multiset(c.needsHuman) ==
            multiset(Entries(Among(rows, keys + {key})))
  {
    hide Among, Members;
    AmongOneMore(rows, keys, key);
    MembersHaveKey(rows, key);
    assert forall e :: e in entries ==> e.group == key;
    if PatchEntries(c.patches) == PatchEntries(b.patches) + entries {
      assert multiset(PatchEntries(c.patches)) == multiset(PatchEntries(b.patches)) + multiset(entries);
    }
  }

  datatype Reason =
    ReplayFailed | ValidatorRed | BuildFailed | ParityMismatch | DeployFailed | BuildOnly | Committed

  datatype Exit =
    | Raised
    | Exit(applied: seq<Patch>, drift: seq<Entry>, needsHuman: seq<Entry>, blocked: seq<Patch>, reason: Reason)

  /** What the pipeline approves, one after the other. */
  datatype Stage = Validated | Built | ParityHeld | Deployable

  /** The stages behind a run that ends for this reason. */
  function StagesBefore(reason: Reason): seq<Stage> {
    match reason
    case ReplayFailed => []
    case ValidatorRed => []
    case BuildFailed => [Validated]
    case ParityMismatch => [Validated, Built]
    case DeployFailed => [Validated, Built, ParityHeld]
    case BuildOnly => [Validated, Built, ParityHeld, Deployable]
    case Committed => [Validated, Built, ParityHeld, Deployable]
  }

  class Transaction {
    const edit: Editor
    const gate: Gate
    const schemas: set<Path>
    /** Which trees the pipeline's stages approve. */
    const approves: (Stage, Files) -> bool
    /** No command and no call raises. */
    const calm: bool

    var canonical: Files
    var worktree: Files
    /** How often patches were written to the worktree. */
    ghost var rounds: nat
    /** The stages that approved the worktree. */
    ghost var stages: seq<Stage>

    constructor (edit: Editor, gate: Gate, schemas: set<Path>, approves: (Stage, Files) -> bool, calm: bool,
                 canonical: Files)
      ensures this.edit == edit && this.gate == gate && this.schemas == schemas && this.canonical == canonical
      ensures this.approves == approves && this.calm == calm
      ensures rounds == 0 && stages == []
    {
      this.edit, this.gate, this.schemas, this.calm, this.canonical := edit, gate, schemas, calm, canonical;
      this.approves := approves;
      worktree, rounds, stages := map[], 0, [];
    }

    /** `_apply_patch_files`: the tree with the patches applied, and what became of each patch. */
    method ApplyPatchFiles(patches: seq<Patch>) returns (results: map<Id, Outcome>)
      requires Placed(worktree, patches)
      modifies this`worktree, this`rounds
      ensures rounds == old(rounds) + 1
      ensures worktree == Patched(edit, old(worktree), patches)
      ensures forall p :: p in patches ==> p.id in results
      ensures results == FinalResults(edit, old(worktree), patches, schemas)
      ensures AllDone(patches, results) <==> CleanRun(edit, old(worktree), patches, schemas)
    {
      hide ChangesAlone, ApplyFilePatches, FileOrder, OnFile, Claims, OfGroup, GroupOrder, Flagged, Silent, AllDone,
        CleanRun;
      var before := worktree;
      var order, groups := FileOrder(patches), GroupOrder(patches);
      OrderIsPlaced(before, patches);
      var changedGroups := MeasureGroups(patches, groups);
      results := WriteFiles(patches, order);
      assert results == Results(edit, before, patches);
      EveryPatchHasResult(edit, before, order, patches);
      FileOrderMembers(patches);
      var successful := set f | f in order && forall p :: p in patches && p.body.file == f ==> results[p.id] == Done;
      var changed := set f | f in order && worktree[f] != before[f];
      forall g | g in groups
        ensures Flagged(patches, g, changedGroups, successful, changed) <==> Silent(edit, before, patches, g, schemas)
      {
        FlaggedIsSilent(before, patches, g, changedGroups, successful, changed);
      }
      results := FlagSilent(patches, groups, results, changedGroups, successful, changed);
      assert (set g | g in groups && Flagged(patches, g, changedGroups, successful, changed)) ==
             set g | g in groups && Silent(edit, before, patches, g, schemas);
      CleanIsAllDone(edit, before, patches, schemas);
    }

    lemma FlaggedIsSilent(before: Files, patches: seq<Patch>, group: Group, changedGroups: set<Group>,
                          successful: set<Path>, changed: set<Path>)
      requires Placed(before, patches)
      requires forall p :: p in patches ==> p.id in Results(edit, before, patches)
      requires successful == set f | f in FileOrder(patches) && forall p :: p in patches && p.body.file == f ==>
               Results(edit, before, patches)[p.id] == Done
      requires var after := Patched(edit, before, patches);
               after.Keys == before.Keys && changed == set f | f in FileOrder(patches) && f in after && f in before
                   && after[f] != before[f]
      requires group in changedGroups <==> Claims(OfGroup(patches, group)) && AloneFrom(before, patches, group)
      ensures Flagged(patches, group, changedGroups, successful, changed) <==>
              Silent(edit, before, patches, group, schemas)
    {
      hide ChangesAlone, FileOrder, Claims, OfGroup, Patched, Results;
      OfGroupMembers(patches, group);
      FileOrderMembers(patches);
      var members := OfGroup(patches, group);
      forall p | p in members
        ensures p.body.file in successful <==> Succeeded(edit, before, patches, p.body.file)
        ensures p.body.file in changed <==> Touched(edit, before, patches, p.body.file)
      {
      }
    }

    predicate AloneFrom(before: Files, patches: seq<Patch>, group: Group)
      requires Placed(before, patches)
    {
      OfGroupMembers(patches, group);
      ChangesAlone(edit, before, OfGroup(patches, group), schemas)
    }

    /** What the final check holds against a group. */
    predicate Flagged(patches: seq<Patch>, group: Group, changedGroups: set<Group>, successful: set<Path>,
        changed: set<Path>) {
      var members := OfGroup(patches, group);
      && Claims(members)
      && (group !in changedGroups || forall p :: p in members ==> p.body.file in successful && p.body.file !in changed)
    }

    /** The final check: the patches of a silent group are handed to a human. */
    method FlagSilent(patches: seq<Patch>, groups: seq<Group>, plain: map<Id, Outcome>, changedGroups: set<Group>,
                      successful: set<Path>, changed: set<Path>) returns (results: map<Id, Outcome>)
      requires groups == GroupOrder(patches)
      ensures results ==
              Demoted(plain, patches, set g | g in groups && Flagged(patches, g, changedGroups, successful, changed))
    {
      hide Claims, OfGroup, GroupOrder, Flagged;
      results := plain;
      NoneSilent(plain, patches);
      ghost var silent: set<Group> := {};
      var k := 0;
      while k < |groups|
        invariant k <= |groups| && results == Demoted(plain, patches, silent)
        invariant silent == set g | g in groups[..k] && Flagged(patches, g, changedGroups, successful, changed)
      {
        assert groups[..k + 1] == groups[..k] + [groups[k]];
        if Flagged(patches, groups[k], changedGroups, successful, changed) {
          OfGroupMembers(patches, groups[k]);
          OneMoreSilent(plain, patches, silent, groups[k]);
          results := Demote(results, OfGroup(patches, groups[k]));
          silent := silent + {groups[k]};
        }
        k := k + 1;
      }
      assert groups[..|groups|] == groups;
    }

    lemma NoneSilent(plain: map<Id, Outcome>, patches: seq<Patch>)
      ensures Demoted(plain, patches, {}) == plain
    {
    }

    lemma OneMoreSilent(plain: map<Id, Outcome>, patches: seq<Patch>, silent: set<Group>, group: Group)
      ensures Demoted(plain, patches, silent + {group}) ==
              Handed(Demoted(plain, patches, silent), OfGroup(patches, group))
    {
      hide OfGroup;
      OfGroupMembers(patches, group);
    }

    /** The successes among these patches become a human's. */
    ghost function Handed(results: map<Id, Outcome>, members: seq<Patch>): map<Id, Outcome> {
      map id | id in results ::
        if results[id] == Done && exists p :: p in members && p.id == id then NeedsHuman else results[id]
    }

    lemma HandedOneMore(results: map<Id, Outcome>, members: seq<Patch>, p: Patch)
      ensures var r := Handed(results, members);
              Handed(results, members + [p]) == if p.id in r && r[p.id] == Done then r[p.id := NeedsHuman] else r
    {
      assert forall q :: q in members + [p] <==> q in members || q == p;
    }

    lemma HandedNothing(results: map<Id, Outcome>)
      ensures Handed(results, []) == results
    {
    }

    method Demote(results: map<Id, Outcome>, members: seq<Patch>) returns (r: map<Id, Outcome>)
      ensures r == Handed(results, members)
    {
      hide Handed;
      r := results;
      HandedNothing(results);
      var k := 0;
      while k < |members|
        invariant k <= |members| && r == Handed(results, members[..k])
      {
        assert members[..k + 1] == members[..k] + [members[k]];
        HandedOneMore(results, members[..k], members[k]);
        if members[k].id in r && r[members[k].id] == Done {
          r := r[members[k].id := NeedsHuman];
        }
        k := k + 1;
      }
      assert members[..|members|] == members;
    }

    method MeasureGroups(patches: seq<Patch>, groups: seq<Group>) returns (changed: set<Group>)
      requires Placed(worktree, patches)
      ensures forall g :: g in changed <==>
                g in groups && Claims(OfGroup(patches, g)) && AloneFrom(worktree, patches, g)
    {
      hide ChangesAlone, Claims, OfGroup;
      changed := {};
      var k := 0;
      while k < |groups|
        invariant k <= |groups|
        invariant forall g :: g in changed <==>
                    g in groups[..k] && Claims(OfGroup(patches, g)) && AloneFrom(worktree, patches, g)
      {
        OfGroupMembers(patches, groups[k]);
        var members := OfGroup(patches, groups[k]);
        if Claims(members) && ChangesAlone(edit, worktree, members, schemas) {
          changed := changed + {groups[k]};
        }
        k := k + 1;
      }
      assert groups[..|groups|] == groups;
    }

    method WriteFiles(patches: seq<Patch>, order: seq<Path>) returns (results: map<Id, Outcome>)
      requires forall f :: f in order ==> f in worktree
      modifies this`worktree, this`rounds
      ensures rounds == old(rounds) + 1
      ensures var r := ApplyInOrder(edit, old(worktree), order, patches); worktree == r.files && results == r.results
    {
      hide ApplyFilePatches, OnFile, ApplyInOrder;
      results, rounds := map[], rounds + 1;
      ApplyNone(edit, worktree, order, patches);
      ghost var before := worktree;
      var k := 0;
      while k < |order|
        invariant k <= |order| && rounds == old(rounds) + 1
        invariant var r := ApplyInOrder(edit, before, order[..k], patches); worktree == r.files && results == r.results
      {
        ApplyNext(edit, before, order, k, patches);
        var e := ApplyFilePatches(edit, worktree, order[k], OnFile(patches, order[k]));
        worktree := worktree[order[k] := e.text];
        results := results + e.results;
        k := k + 1;
      }
      assert order[..|order|] == order;
    }

    // ---- The transaction ------------------------------------------------------------------------------------

    method Raises() returns (raised: bool)
      ensures calm ==> !raised
    {
      raised := *;
      raised := raised && !calm;
    }

    /** A pipeline stage's verdict. */
    method Passes(stage: Stage) returns (ok: bool)
      modifies this`stages
      ensures ok == approves(stage, worktree) && stages == if ok then old(stages) + [stage] else old(stages)
    {
      ok := approves(stage, worktree);
      if ok {
        stages := stages + [stage];
      }
    }

    /** Every group is where its gate's verdict on the tree puts it. */
    ghost predicate GatedRight(b: Buckets, rows: seq<Row>, tree: Files) {
      && (forall e :: e in b.drift ==> gate(Members(rows, e.group), tree).Drifts?)
      && (forall e :: e in b.needsHuman ==> gate(Members(rows, e.group), tree).NeedsReview?)
      && forall p :: p in b.patches ==> FromGate(p, rows, tree)
    }

    predicate FromGate(p: Patch, rows: seq<Row>, tree: Files) {
      var verdict := gate(Members(rows, p.group), tree);
      verdict.Patchable? && p in MakePatches(Members(rows, p.group), verdict.make)
    }

    /** The same once patches were rolled back: a human gets what the gate held up, and groups that failed. */
    ghost predicate StillRight(b: Buckets, rows: seq<Row>, tree: Files) {
      && (forall e :: e in b.drift ==> gate(Members(rows, e.group), tree).Drifts?)
      && (forall e :: e in b.needsHuman ==> !gate(Members(rows, e.group), tree).Drifts?)
      && forall p :: p in b.patches ==> FromGate(p, rows, tree)
    }

    /** Nothing but patches that go to a human. */
    ghost predicate OnlyHandsOver(b: Buckets, c: Buckets) {
      && c.drift == b.drift && (forall p :: p in c.patches ==> p in b.patches)
      && forall e :: e in c.needsHuman ==> e in b.needsHuman || exists p :: p in b.patches && PatchEntry(p) == e
    }

    lemma Misplaced(b: Buckets, rows: seq<Row>, tree: Files)
      requires GatedRight(b, rows, tree) && exists p :: p in b.patches && p.body.file !in tree
      ensures exists p :: FromGate(p, rows, tree) && p.body.file !in tree
    {
      hide FromGate;
      var p :| p in b.patches && p.body.file !in tree;
    }

    lemma HandedOver(b: Buckets, c: Buckets, rows: seq<Row>, tree: Files)
      requires GatedRight(b, rows, tree) && OnlyHandsOver(b, c)
      ensures StillRight(c, rows, tree)
    {
      hide MakePatches, Members;
    }

    lemma AllHandedOver(b: Buckets, c: Buckets)
      requires OnlyHandsOver(b, c)
      ensures OnlyHandsOver(b, Buckets(c.drift, c.needsHuman + PatchEntries(c.patches), []))
    {
      forall e | e in PatchEntries(c.patches) ensures exists p :: p in b.patches && PatchEntry(p) == e {
        var k :| 0 <= k < |PatchEntries(c.patches)| && PatchEntries(c.patches)[k] == e;
        assert c.patches[k] in b.patches && PatchEntry(c.patches[k]) == e;
      }
    }

    /** The groups in the order of their keys, each put where its verdict says. */
    function Gated(rows: seq<Row>, keys: seq<Group>, tree: Files): Buckets {
      if keys == [] then Buckets([], [], [])
      else
        var b, members := Gated(rows, keys[..|keys| - 1], tree), Members(rows, keys[|keys| - 1]);
        match gate(members, tree)
        case Drifts => b.(drift := b.drift + Entries(members))
        case NeedsReview => b.(needsHuman := b.needsHuman + Entries(members))
        case Patchable(make) => b.(patches := b.patches + MakePatches(members, make))
    }

    lemma GatedNext(rows: seq<Row>, keys: seq<Group>, k: nat, tree: Files)
      requires k < |keys|
      ensures var b, members := Gated(rows, keys[..k], tree), Members(rows, keys[k]);
              Gated(rows, keys[..k + 1], tree) ==
              match gate(members, tree)
              case Drifts => b.(drift := b.drift + Entries(members))
              case NeedsReview => b.(needsHuman := b.needsHuman + Entries(members))
              case Patchable(make) => b.(patches := b.patches + MakePatches(members, make))
    {
      hide Members, Entries, MakePatches;
      assert keys[..k + 1][..k] == keys[..k];
    }

    /** Step 5: each group is gated as a whole. */
    method GateGroups(rows: seq<Row>) returns (b: Buckets)
      ensures Accounts(b, rows) && GatedRight(b, rows, worktree) && b == Gated(rows, GroupKeys(rows), worktree)
    {
      hide Gated, Among, Members, GroupKeys, Apart, Within, PatchEntries, Entries, MakePatches;
      b := Buckets([], [], []);
      var keys := GroupKeys(rows);
      GroupKeyMembers(rows);
      AmongNone(rows);
      NothingYet();
      assert keys[..0] == [] && Gated(rows, [], worktree) == b by {
        NothingGated(rows, worktree);
      }
      var k := 0;
      ghost var seen: set<Group> := {};
      while k < |keys|
        invariant k <= |keys| && seen == (set key | key in keys[..k]) && b == Gated(rows, keys[..k], worktree)
        invariant Within(b, seen) && Apart(b) && GatedRight(b, rows, worktree)
        invariant multiset(PatchEntries(b.patches)) + multiset(b.drift) + multiset(b.needsHuman) ==
                  multiset(Entries(Among(rows, seen)))
      {
        var members := Members(rows, keys[k]);
        GatedNext(rows, keys, k, worktree);
        var next := b;
        match gate(members, worktree) {
          case Drifts => next := b.(drift := b.drift + Entries(members));
          case NeedsReview => next := b.(needsHuman := b.needsHuman + Entries(members));
          case Patchable(make) =>
            next := b.(patches := b.patches + MakePatches(members, make));
            Made(b.patches, members, make);
            MadeOfGroup(rows, keys[k], make);
        }
        assert keys[k] !in seen;
        MembersOfGroup(rows, keys[k]);
        GroupAdded(b, next, rows, seen, keys[k], Entries(members));
        b, seen := next, seen + {keys[k]};
        assert keys[..k + 1] == keys[..k] + [keys[k]];
        k := k + 1;
      }
      assert keys[..|keys|] == keys;
      AmongAll(rows, seen);
    }

    lemma NothingGated(rows: seq<Row>, tree: Files)
      ensures Gated(rows, [], tree) == Buckets([], [], [])
    {
    }

    lemma MembersOfGroup(rows: seq<Row>, key: Group)
      ensures forall e :: e in Entries(Members(rows, key)) ==> e.group == key
    {
      hide Members;
      MembersHaveKey(rows, key);
    }

    lemma MadeOfGroup(rows: seq<Row>, key: Group, make: Row -> Body)
      ensures forall p :: p in MakePatches(Members(rows, key), make) ==> p.group == key
    {
      hide Members;
      MembersHaveKey(rows, key);
    }

    lemma NothingYet()
      ensures Within(Buckets([], [], []), {}) && Apart(Buckets([], [], []))
      ensures PatchEntries([]) == [] && Entries([]) == []
    {
    }

    lemma Made(patches: seq<Patch>, members: seq<Row>, make: Row -> Body)
      ensures PatchEntries(patches + MakePatches(members, make)) == PatchEntries(patches) + Entries(members)
    {
    }

    /** The groups with a failed member leave, whole, for a human; the others are kept. */
    method RollBack(b: Buckets, results: map<Id, Outcome>, rows: seq<Row>) returns (c: Buckets)
      requires Accounts(b, rows) && forall p :: p in b.patches ==> p.id in results
      ensures Accounts(c, rows) && OnlyHandsOver(b, c)
      ensures c.patches == Without(b.patches, set p | p in b.patches && results[p.id] != Done :: p.group)
    {
      hide PatchEntries, Entries, Without;
      var failed := set p | p in b.patches && results[p.id] != Done :: p.group;
      WithoutNone(failed);
      var moved: seq<Entry>, kept: seq<Patch> := [], [];
      var k := 0;
      NothingYet();
      while k < |b.patches|
        invariant k <= |b.patches| && kept == Without(b.patches[..k], failed)
        invariant multiset(PatchEntries(b.patches[..k])) == multiset(PatchEntries(kept)) + multiset(moved)
        invariant forall p :: p in kept <==> p in b.patches[..k] && p.group !in failed
        invariant forall e :: e in moved ==> e.group in failed && exists p :: p in b.patches && PatchEntry(p) == e
      {
        var p := b.patches[k];
        OnePatchMore(b.patches[..k], p);
        OnePatchMore(kept, p);
        assert b.patches[..k + 1] == b.patches[..k] + [p];
        WithoutNext(b.patches[..k], p, failed);
        if p.group in failed {
          moved := moved + [PatchEntry(p)];
        } else {
          kept := kept + [p];
        }
        k := k + 1;
      }
      assert b.patches[..|b.patches|] == b.patches;
      c := Buckets(b.drift, b.needsHuman + moved, kept);
      PartitionedApart(b, c, moved, failed);
    }

    lemma OnePatchMore(patches: seq<Patch>, p: Patch)
      ensures multiset(PatchEntries(patches + [p])) == multiset(PatchEntries(patches)) + multiset{PatchEntry(p)}
    {
      assert PatchEntries(patches + [p]) == PatchEntries(patches) + [PatchEntry(p)];
    }

    lemma PatchGroup(patches: seq<Patch>, g: Group)
      ensures g in Groups(PatchEntries(patches)) <==> exists p :: p in patches && p.group == g
    {
      if g in Groups(PatchEntries(patches)) {
        var e :| e in PatchEntries(patches) && e.group == g;
        var k :| 0 <= k < |patches| && PatchEntries(patches)[k] == e;
        assert patches[k] in patches;
      }
      if p :| p in patches && p.group == g {
        var k :| 0 <= k < |patches| && patches[k] == p;
        assert PatchEntries(patches)[k] in PatchEntries(patches);
      }
    }

    lemma PartitionedApart(b: Buckets, c: Buckets, moved: seq<Entry>, failed: set<Group>)
      requires Apart(b) && c.drift == b.drift && c.needsHuman == b.needsHuman + moved
      requires forall p :: p in c.patches ==> p in b.patches && p.group !in failed
      requires forall e :: e in moved ==> e.group in failed && exists p :: p in b.patches && PatchEntry(p) == e
      ensures Apart(c)
    {
      hide PatchEntries;
      forall g ensures g in Groups(PatchEntries(c.patches)) ==> g in Groups(PatchEntries(b.patches)) && g !in failed {
        PatchGroup(c.patches, g);
        PatchGroup(b.patches, g);
      }
      forall g ensures g in Groups(moved) ==> g in failed && g in Groups(PatchEntries(b.patches)) {
        PatchGroup(b.patches, g);
      }
      assert Groups(c.needsHuman) == Groups(b.needsHuman) + Groups(moved);
    }

    /** The whole retained set is given up after a failed replay. */
    lemma GivenUp(b: Buckets, rows: seq<Row>)
      requires Accounts(b, rows)
      ensures Accounts(Buckets(b.drift, b.needsHuman + PatchEntries(b.patches), []), rows)
    {
      hide Entries;
      assert PatchEntries([]) == [];
      assert Groups(b.needsHuman + PatchEntries(b.patches)) == Groups(b.needsHuman) + Groups(PatchEntries(b.patches));
    }

    /** In the first round every patch of the group succeeded. */
    ghost predicate GroupSucceeded(files: Files, patches: seq<Patch>, group: Group)
      requires Placed(files, patches)
    {
      forall p :: p in patches && p.group == group ==>
        p.id in FinalResults(edit, files, patches, schemas) && FinalResults(edit, files, patches, schemas)[p.id] == Done
    }

    /** The patches of the other groups, in order. */
    function Without(patches: seq<Patch>, failed: set<Group>): seq<Patch> {
      if patches == [] then []
      else
        Without(patches[..|patches| - 1], failed) +
        if patches[|patches| - 1].group in failed then [] else [patches[|patches| - 1]]
    }

    lemma WithoutNone(failed: set<Group>)
      ensures Without([], failed) == []
    {
    }

    lemma WithoutNext(patches: seq<Patch>, p: Patch, failed: set<Group>)
      ensures Without(patches + [p], failed) == Without(patches, failed) + if p.group in failed then [] else [p]
    {
      assert (patches + [p])[..|patches|] == patches;
    }

    lemma {:induction false} WithoutIsPlaced(files: Files, patches: seq<Patch>, failed: set<Group>)
      requires Placed(files, patches)
      ensures Placed(files, Without(patches, failed))
      decreases |patches|
    {
      if patches != [] {
        WithoutIsPlaced(files, patches[..|patches| - 1], failed);
      }
    }

    /** The groups of which a patch did not succeed in the first round. */
    ghost function Failing(files: Files, patches: seq<Patch>): set<Group>
      requires Placed(files, patches)
    {
      set p | p in patches && !GroupSucceeded(files, patches, p.group) :: p.group
    }

    /** What is in the tree at the end: all patches, or those of the groups that succeeded, or nothing at all. */
    ghost predicate Survive(files: Files, patches: seq<Patch>, survivors: seq<Patch>, replayFailed: bool)
      requires Placed(files, patches)
    {
      WithoutIsPlaced(files, patches, Failing(files, patches));
      var kept := Without(patches, Failing(files, patches));
      if CleanRun(edit, files, patches, schemas) then survivors == patches && !replayFailed
      else if CleanRun(edit, files, kept, schemas) then survivors == kept && !replayFailed
      else survivors == [] && replayFailed
    }

    lemma FailingAre(files: Files, patches: seq<Patch>, results: map<Id, Outcome>)
      requires Placed(files, patches) && results == FinalResults(edit, files, patches, schemas)
      requires forall p :: p in patches ==> p.id in results
      ensures (set p | p in patches && results[p.id] != Done :: p.group) == Failing(files, patches)
    {
      hide FinalResults;
      var failed := set p | p in patches && results[p.id] != Done :: p.group;
      forall g ensures g in failed <==> g in Failing(files, patches) {
        if g in failed {
          var p :| p in patches && results[p.id] != Done && p.group == g;
          assert !GroupSucceeded(files, patches, p.group);
        }
        if g in Failing(files, patches) {
          var p :| p in patches && !GroupSucceeded(files, patches, p.group) && p.group == g;
          var q :| q in patches && q.group == g && results[q.id] != Done;
        }
      }
    }

    /** Steps 6 and on up to the validator: patch, and if that fails, roll back and replay once. */
    method PatchAndReplay(b: Buckets, rows: seq<Row>) returns (c: Buckets, replayFailed: bool, raised: bool)
      requires Accounts(b, rows)
      modifies this`worktree, this`rounds
      ensures rounds <= old(rounds) + 2
      ensures !raised ==> Accounts(c, rows) && OnlyHandsOver(b, c) && (replayFailed ==> c.patches == [])
      ensures !raised && !replayFailed ==>
                && Placed(old(worktree), c.patches) && worktree == Patched(edit, old(worktree), c.patches)
                && CleanRun(edit, old(worktree), c.patches, schemas)
      ensures raised ==> exists p :: p in b.patches && p.body.file !in old(worktree)
      ensures !raised ==> Placed(old(worktree), b.patches) && Survive(old(worktree), b.patches, c.patches, replayFailed)
      ensures !raised && rounds == old(rounds) + 1 ==> c == b
    {
      hide Accounts, Patched, CleanRun, FinalResults, Without;
      c, replayFailed, raised := b, false, false;
      var base := worktree;
      if exists p :: p in b.patches && p.body.file !in worktree {
        return b, false, true;
      }
      var results := ApplyPatchFiles(b.patches);
      if AllDone(b.patches, results) {
        return;
      }
      c := RollBack(b, results, rows);
      FailingAre(base, b.patches, results);
      WithoutIsPlaced(base, b.patches, Failing(base, b.patches));
      worktree := base;
      var replay := ApplyPatchFiles(c.patches);
      if !AllDone(c.patches, replay) {
        GivenUp(c, rows);
        AllHandedOver(b, c);
        return Buckets(c.drift, c.needsHuman + PatchEntries(c.patches), []), true, false;
      }
    }

    ghost predicate Conserved(exit: Exit, rows: seq<Row>)
    {
      exit.Exit? ==>
        && Accounts(Buckets(exit.drift, exit.needsHuman, exit.applied + exit.blocked), rows)
        && (exit.applied == [] || exit.blocked == [])
    }

    /**
     `run_apply` after a successful claim.  Unless something raises, every fetched row is in exactly one
     bucket and no group is split; the patches are written at most twice; and the tree handed to the
     validator is the base with precisely the surviving patches applied, all of them effective.  The
     canonical tree changes only by the final merge, and then to that very tree, once every stage approved it.
     A row is held as drift exactly when its group's gate says so, and only patches the gate made are written.
     */
    method RunApply(rows: seq<Row>, planOnly: bool) returns (exit: Exit)
      requires stages == []
      modifies this
      ensures exit.Exit? ==>
                StillRight(Buckets(exit.drift, exit.needsHuman, exit.applied + exit.blocked), rows, old(canonical))
      ensures calm && exit.Raised? ==> exists p :: FromGate(p, rows, old(canonical)) && p.body.file !in old(canonical)
      ensures exit.Exit? ==> stages == StagesBefore(exit.reason)
      ensures canonical != old(canonical) ==> stages == StagesBefore(Committed)
      ensures Conserved(exit, rows) && rounds <= old(rounds) + 2
      ensures exit.Exit? && exit.reason == ReplayFailed ==> exit.applied == [] && exit.blocked == []
      ensures exit.Exit? && exit.reason != ReplayFailed ==>
                var survivors := exit.applied + exit.blocked;
                && Placed(old(canonical), survivors) && worktree == Patched(edit, old(canonical), survivors)
                && CleanRun(edit, old(canonical), survivors, schemas)
                && forall p :: p in survivors &&
                               (p.body.original != p.body.replacement || p.body.op !in {None, Some("")}) ==>
                     Effective(edit, old(canonical), survivors, p.group, schemas)
      ensures exit.Exit? ==>
                && AreRows(exit.drift, rows) && AreRows(exit.needsHuman, rows)
                && AreRows(PatchEntries(exit.applied + exit.blocked), rows)
      ensures exit.Exit? ==> (exit.blocked != [] ==>
              exit.reason in {ValidatorRed, BuildFailed, ParityMismatch, DeployFailed})
      ensures exit.Exit? ==>
                canonical == if exit.reason == Committed then Patched(edit, old(canonical), exit.applied)
                    else old(canonical)
      ensures exit.Exit? ==>
                var patches := Gated(rows, GroupKeys(rows), old(canonical)).patches;
                && Placed(old(canonical), patches)
                && Survive(old(canonical), patches, exit.applied + exit.blocked, exit.reason == ReplayFailed)
      ensures exit.Exit? && exit.reason != ReplayFailed ==> EndsFor(exit.reason, planOnly, worktree)
      ensures canonical == old(canonical) || canonical == worktree
    {
      hide Accounts, Patched, CleanRun, Placed, GatedRight, StillRight, OnlyHandsOver, GroupSucceeded, FromGate,
        Survive, Gated, EndsFor, Effective, AreRows, PatchEntries;
      worktree := canonical;
      var raised := Raises();
      if raised {
        return Raised;
      }
      var gated := GateGroups(rows);
      var b, replayFailed;
      b, replayFailed, raised := PatchAndReplay(gated, rows);
      if raised {
        if calm {
          Misplaced(gated, rows, old(canonical));
        }
        return Raised;
      }
      HandedOver(gated, b, rows, old(canonical));
      assert b.patches + [] == b.patches && [] + b.patches == b.patches;
      assert b == Buckets(b.drift, b.needsHuman, b.patches);
      AccountedAreRows(b, rows);
      if replayFailed {
        return Exit([], b.drift, b.needsHuman, [], ReplayFailed);
      }
      CleanIsEffective(edit, old(canonical), b.patches, schemas);
      exit := Pipeline(b, planOnly);
    }

    /** Why the pipeline ends: the first stage that does not approve the tree, or what was asked for. */
    predicate EndsFor(reason: Reason, planOnly: bool, tree: Files) {
      && (reason == ValidatorRed <==> !approves(Validated, tree))
      && (reason == BuildFailed <==> approves(Validated, tree) && !approves(Built, tree))
      && (reason == ParityMismatch <==>
          approves(Validated, tree) && approves(Built, tree) && !approves(ParityHeld, tree))
      && (reason == DeployFailed <==>
          approves(Validated, tree) && approves(Built, tree) && approves(ParityHeld, tree) &&
          !approves(Deployable, tree))
      && (reason in {BuildOnly, Committed} <==>
          approves(Validated, tree) && approves(Built, tree) && approves(ParityHeld, tree) &&
          approves(Deployable, tree))
      && (reason == BuildOnly ==> planOnly) && (reason == Committed ==> !planOnly)
    }

    /** From the validator to the merge, one stage after the other. */
    method Pipeline(b: Buckets, planOnly: bool) returns (exit: Exit)
      requires stages == []
      modifies this`stages, this`canonical
      ensures calm ==> exit.Exit?
      ensures exit.Exit? ==>
                && EndsFor(exit.reason, planOnly, worktree) && exit.reason != ReplayFailed
                && stages == StagesBefore(exit.reason)
                && exit.drift == b.drift && exit.needsHuman == b.needsHuman
                && (if exit.reason in {BuildOnly, Committed} then exit.applied == b.patches && exit.blocked == []
                    else exit.applied == [] && exit.blocked == b.patches)
                && canonical == if exit.reason == Committed then worktree else old(canonical)
      ensures canonical == old(canonical) || (canonical == worktree && stages == StagesBefore(Committed))
    {
      var raised := Raises();
      if raised {
        return Raised;
      }
      var ok := Passes(Validated);
      if !ok {
        return Exit([], b.drift, b.needsHuman, b.patches, ValidatorRed);
      }
      ok := Passes(Built);
      if !ok {
        return Exit([], b.drift, b.needsHuman, b.patches, BuildFailed);
      }
      ok := Passes(ParityHeld);
      if !ok {
        return Exit([], b.drift, b.needsHuman, b.patches, ParityMismatch);
      }
      ok := Passes(Deployable);
      if !ok {
        return Exit([], b.drift, b.needsHuman, b.patches, DeployFailed);
      }
      if planOnly {
        return Exit(b.patches, b.drift, b.needsHuman, [], BuildOnly);
      }
      raised := Raises();
      if raised {
        return Raised;
      }
      canonical := worktree;
      raised := Raises();
      if raised {
        return Raised;
      }
      return Exit(b.patches, b.drift, b.needsHuman, [], Committed);
    }
  }
}
