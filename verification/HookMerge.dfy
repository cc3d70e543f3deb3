/** Registering youk's hook groups in an agent's settings, and removing them. */
module HookMerge {
  import opened Prelude

  /** A hook group: the command of each of its hooks, where there is one, and the rest. */
  datatype Group = Group(matcher: string, commands: seq<Option<string>>)

  type Table = map<string, seq<Group>>

  /** The settings' hooks field: missing, present but null or empty of any kind, or a table. */
  datatype Field = Missing | Null | Hooks(table: Table)

  datatype Settings = Settings(hooks: Field, rest: map<string, string>)

  predicate Contains(text: string, part: string) {
    exists i :: 0 <= i <= |text| - |part| && text[i..][..|part|] == part
  }

  function Text(command: Option<string>): string {
    if command.Some? then command.value else ""
  }

  /** A group is youk's when some command of it mentions the scripts directory. */
  predicate IsYouk(group: Group, scriptsDir: string) {
    exists i :: 0 <= i < |group.commands| && Contains(Text(group.commands[i]), scriptsDir)
  }

  function Foreign(scriptsDir: string): Group -> bool {
    (group: Group) => !IsYouk(group, scriptsDir)
  }

  function Ours(scriptsDir: string): Group -> bool {
    (group: Group) => IsYouk(group, scriptsDir)
  }

  function At(table: Table, event: string): seq<Group> {
    if event in table then table[event] else []
  }

  /** The table read from the settings; a falsy field reads as an empty one. */
  function Current(s: Settings): Table {
    if s.hooks.Hooks? then s.hooks.table else map[]
  }

  /** What one event's groups become. */
  function MergedAt(current: Table, added: Table, scriptsDir: string, event: string): seq<Group> {
    Filter(At(current, event), Foreign(scriptsDir)) + At(added, event)
  }

  function MergedTable(current: Table, added: Table, scriptsDir: string): Table {
    map event | event in current.Keys + added.Keys && MergedAt(current, added, scriptsDir, event) != []
      :: MergedAt(current, added, scriptsDir, event)
  }

  function Stored(table: Table): Field {
    if table == map[] then Missing else Hooks(table)
  }

  function Install(s: Settings, hooks: Table, scriptsDir: string): Settings {
    Settings(Stored(MergedTable(Current(s), hooks, scriptsDir)), s.rest)
  }

  function Remove(s: Settings, scriptsDir: string): Settings {
    Settings(Stored(MergedTable(Current(s), map[], scriptsDir)), s.rest)
  }

  lemma TableAt(current: Table, added: Table, scriptsDir: string, event: string)
    ensures At(MergedTable(current, added, scriptsDir), event) == MergedAt(current, added, scriptsDir, event)
    ensures event in MergedTable(current, added, scriptsDir) <==> MergedAt(current, added, scriptsDir, event) != []
  {
    if event !in current.Keys + added.Keys {
      assert Filter([], Foreign(scriptsDir)) == [];
    }
  }

  lemma SameTable(a: Table, b: Table)
    requires forall e :: e in a <==> e in b
    requires forall e :: At(a, e) == At(b, e)
    ensures a == b
  {
    forall e | e in a ensures a[e] == b[e] {
      assert At(a, e) == At(b, e);
    }
  }

  /** Some events done, the others as they were. */
  ghost predicate Progress(current: Table, before: Table, target: Table, events: set<string>) {
    forall e ::
      && (e in events ==> At(current, e) == At(before, e) && (e in current <==> e in before))
      && (e !in events ==> At(current, e) == At(target, e) && (e in current <==> e in target))
  }

  lemma ProgressStep(current: Table, next: Table, before: Table, target: Table, events: set<string>, event: string)
    requires Progress(current, before, target, events)
    requires forall e :: e != event ==> At(next, e) == At(current, e) && (e in next <==> e in current)
    requires At(next, event) == At(target, event) && (event in next <==> event in target)
    ensures Progress(next, before, target, events - {event})
  {
  }

  /** One event's turn in the loop. */
  method MergeEvent(current: Table, added: seq<Group>, scriptsDir: string, event: string) returns (next: Table)
    ensures var merged := Filter(At(current, event), Foreign(scriptsDir)) + added;
            next == if merged != [] then current[event := merged] else current - {event}
  {
    var kept := Filter(At(current, event), Foreign(scriptsDir));
    var merged := kept + added;
    if merged != [] {
      next := current[event := merged];
    } else {
      next := current - {event};
    }
  }

  /** The loop over all events of either table, in whatever order the set yields them. */
  method Merge(settings: Settings, hooks: Table, scriptsDir: string, remove: bool) returns (out: Settings)
    ensures out == if remove then Remove(settings, scriptsDir) else Install(settings, hooks, scriptsDir)
  {
    var before := Current(settings);
    var current := before;
    ghost var added := if remove then map[] else hooks;
    ghost var target := MergedTable(before, added, scriptsDir);
    var events := before.Keys + hooks.Keys;
    while events != {}
      invariant Progress(current, before, target, events)
      decreases |events|
    {
      var event :| event in events;
      TableAt(before, added, scriptsDir, event);
      var next := MergeEvent(current, if remove then [] else At(hooks, event), scriptsDir, event);
      ProgressStep(current, next, before, target, events, event);
      current, events := next, events - {event};
    }
    SameTable(current, target);
    out := Settings(Stored(current), settings.rest);
  }

  // ---- what merging does to one event ---------------------------------------------------------------

  lemma CurrentOfStored(table: Table, rest: map<string, string>)
    ensures Current(Settings(Stored(table), rest)) == table
  {
  }

  lemma ForeignThenOurs(groups: seq<Group>, scriptsDir: string)
    ensures Filter(Filter(groups, Foreign(scriptsDir)), Foreign(scriptsDir)) == Filter(groups, Foreign(scriptsDir))
    ensures Filter(Filter(groups, Foreign(scriptsDir)), Ours(scriptsDir)) == []
  {
    var foreign := Filter(groups, Foreign(scriptsDir));
    FilterAll(foreign, Foreign(scriptsDir));
    FilterNone(foreign, Ours(scriptsDir));
  }

  /** Every group to be installed is recognised as youk's. */
  ghost predicate AllOurs(hooks: Table, scriptsDir: string) {
    forall event, g :: event in hooks && g in hooks[event] ==> IsYouk(g, scriptsDir)
  }

  /** Installing keeps everyone else's groups in their order and leaves exactly the
      installed groups as youk's: older registrations are replaced, not added to. The rest
      of the settings is untouched. */
  lemma InstallReplacesOnlyOurs(s: Settings, hooks: Table, scriptsDir: string, event: string)
    requires AllOurs(hooks, scriptsDir)
    ensures var after := At(Current(Install(s, hooks, scriptsDir)), event);
            && Filter(after, Foreign(scriptsDir)) == Filter(At(Current(s), event), Foreign(scriptsDir))
            && Filter(after, Ours(scriptsDir)) == At(hooks, event)
    ensures Install(s, hooks, scriptsDir).rest == s.rest
  {
    var kept, added := Filter(At(Current(s), event), Foreign(scriptsDir)), At(hooks, event);
    TableAt(Current(s), hooks, scriptsDir, event);
    ForeignThenOurs(At(Current(s), event), scriptsDir);
    FilterConcat(kept, added, Foreign(scriptsDir));
    FilterConcat(kept, added, Ours(scriptsDir));
    FilterAll(added, Ours(scriptsDir));
    FilterNone(added, Foreign(scriptsDir));
  }

  /** Removing leaves everyone else's groups in their order and none of youk's. */
  lemma RemoveTakesOnlyOurs(s: Settings, scriptsDir: string, event: string)
    ensures At(Current(Remove(s, scriptsDir)), event) == Filter(At(Current(s), event), Foreign(scriptsDir))
    ensures event in Current(Remove(s, scriptsDir)) <==> Filter(At(Current(s), event), Foreign(scriptsDir)) != []
    ensures Remove(s, scriptsDir).rest == s.rest
  {
    TableAt(Current(s), map[], scriptsDir, event);
    assert MergedAt(Current(s), map[], scriptsDir, event) == Filter(At(Current(s), event), Foreign(scriptsDir));
  }

  // ---- idempotence and round trip, exactly --------------------------------------------------------------

  lemma InstalledOnceAt(s: Settings, hooks: Table, scriptsDir: string, event: string)
    ensures var once := Current(Install(s, hooks, scriptsDir));
            && At(once, event) == Filter(At(Current(s), event), Foreign(scriptsDir)) + At(hooks, event)
            && (event in once <==> At(once, event) != [])
  {
    TableAt(Current(s), hooks, scriptsDir, event);
    CurrentOfStored(MergedTable(Current(s), hooks, scriptsDir), s.rest);
  }

  /** Installing a second time: what was kept stays, and whatever of the first
      registration is not recognised is kept as if it were someone else's. */
  lemma InstalledTwiceAt(s: Settings, hooks: Table, scriptsDir: string, event: string)
    ensures var once := Install(s, hooks, scriptsDir);
            At(Current(Install(once, hooks, scriptsDir)), event)
            == Filter(At(Current(s), event), Foreign(scriptsDir)) + Filter(At(hooks, event), Foreign(scriptsDir))
               + At(hooks, event)
  {
    var once := MergedTable(Current(s), hooks, scriptsDir);
    var kept := Filter(At(Current(s), event), Foreign(scriptsDir));
    CurrentOfStored(once, s.rest);
    TableAt(Current(s), hooks, scriptsDir, event);
    TableAt(once, hooks, scriptsDir, event);
    FilterConcat(kept, At(hooks, event), Foreign(scriptsDir));
    ForeignThenOurs(At(Current(s), event), scriptsDir);
  }

  lemma InstallIdempotentAt(s: Settings, hooks: Table, scriptsDir: string, event: string)
    requires AllOurs(hooks, scriptsDir)
    ensures var once := Current(Install(s, hooks, scriptsDir));
            var twice := Current(Install(Install(s, hooks, scriptsDir), hooks, scriptsDir));
            At(twice, event) == At(once, event) && (event in twice <==> event in once)
  {
    InstalledTwiceAt(s, hooks, scriptsDir, event);
    InstalledOnceAt(s, hooks, scriptsDir, event);
    InstalledOnceAt(Install(s, hooks, scriptsDir), hooks, scriptsDir, event);
    FilterNone(At(hooks, event), Foreign(scriptsDir));
    var kept := Filter(At(Current(s), event), Foreign(scriptsDir));
    assert kept + [] == kept;
  }

  lemma InstallIdempotent(s: Settings, hooks: Table, scriptsDir: string)
    requires AllOurs(hooks, scriptsDir)
    ensures var once := Install(s, hooks, scriptsDir);
            Install(once, hooks, scriptsDir) == once
  {
    var once := Install(s, hooks, scriptsDir);
    var was, now := Current(once), Current(Install(once, hooks, scriptsDir));
    forall e ensures At(now, e) == At(was, e) && (e in now <==> e in was) {
      InstallIdempotentAt(s, hooks, scriptsDir, e);
    }
    SameTable(now, was);
  }

  /** Registering twice changes nothing exactly when every installed group is recognised
      as youk's, whatever the settings were. */
  lemma {:induction false} InstallIdempotentExactly(s: Settings, hooks: Table, scriptsDir: string)
    ensures var once := Install(s, hooks, scriptsDir);
            Install(once, hooks, scriptsDir) == once <==> AllOurs(hooks, scriptsDir)
  {
    if AllOurs(hooks, scriptsDir) {
      InstallIdempotent(s, hooks, scriptsDir);
    } else {
      var e, g :| e in hooks && g in hooks[e] && !IsYouk(g, scriptsDir);
      InstalledTwiceAt(s, hooks, scriptsDir, e);
      TableAt(Current(s), hooks, scriptsDir, e);
      CurrentOfStored(MergedTable(Current(s), hooks, scriptsDir), s.rest);
      assert g in Filter(At(hooks, e), Foreign(scriptsDir));
    }
  }

  /** Settings as they were before youk: no group of youk's, no event with an empty list,
      and no null or empty hooks field. */
  ghost predicate Clean(s: Settings, scriptsDir: string) {
    && !s.hooks.Null?
    && (s.hooks.Hooks? ==> s.hooks.table != map[])
    && forall e :: e in Current(s) ==> Current(s)[e] != [] && forall g :: g in Current(s)[e] ==> !IsYouk(g, scriptsDir)
  }

  lemma RoundTripAt(s: Settings, hooks: Table, scriptsDir: string, event: string)
    ensures var back := Current(Remove(Install(s, hooks, scriptsDir), scriptsDir));
            At(back, event)
            == Filter(At(Current(s), event), Foreign(scriptsDir)) + Filter(At(hooks, event), Foreign(scriptsDir))
  {
    var kept := Filter(At(Current(s), event), Foreign(scriptsDir));
    TableAt(Current(s), hooks, scriptsDir, event);
    RemoveTakesOnlyOurs(Install(s, hooks, scriptsDir), scriptsDir, event);
    FilterConcat(kept, At(hooks, event), Foreign(scriptsDir));
    ForeignThenOurs(At(Current(s), event), scriptsDir);
  }

  /** Removing after installing gives the settings back exactly when they were clean and
      every installed group is recognised as youk's. */
  lemma RemoveUndoesInstallExactly(s: Settings, hooks: Table, scriptsDir: string)
    ensures Remove(Install(s, hooks, scriptsDir), scriptsDir) == s
            <==> Clean(s, scriptsDir) && AllOurs(hooks, scriptsDir)
  {
    var back := Remove(Install(s, hooks, scriptsDir), scriptsDir);
    if Clean(s, scriptsDir) && AllOurs(hooks, scriptsDir) {
      forall e ensures At(Current(back), e) == At(Current(s), e) && (e in Current(back) <==> e in Current(s)) {
        RoundTripAt(s, hooks, scriptsDir, e);
        RemoveTakesOnlyOurs(Install(s, hooks, scriptsDir), scriptsDir, e);
        FilterNone(At(hooks, e), Foreign(scriptsDir));
        FilterAll(At(Current(s), e), Foreign(scriptsDir));
      }
      SameTable(Current(back), Current(s));
    }
    if back == s {
      RoundTripMeansClean(s, hooks, scriptsDir);
    }
  }

  lemma RoundTripMeansClean(s: Settings, hooks: Table, scriptsDir: string)
    requires Remove(Install(s, hooks, scriptsDir), scriptsDir) == s
    ensures Clean(s, scriptsDir) && AllOurs(hooks, scriptsDir)
  {
    forall e | e in Current(s)
      ensures Current(s)[e] != [] && forall g :: g in Current(s)[e] ==> !IsYouk(g, scriptsDir)
    {
      RemoveTakesOnlyOurs(Install(s, hooks, scriptsDir), scriptsDir, e);
    }
    forall e, g | e in hooks && g in hooks[e] ensures IsYouk(g, scriptsDir) {
      RoundTripAt(s, hooks, scriptsDir, e);
      if !IsYouk(g, scriptsDir) {
        assert g in Filter(At(hooks, e), Foreign(scriptsDir));
        assert |At(Current(s), e)| > |Filter(At(Current(s), e), Foreign(scriptsDir))|;
        RemoveTakesOnlyOurs(Install(s, hooks, scriptsDir), scriptsDir, e);
        FilterAll(At(Current(s), e), Foreign(scriptsDir));
        assert false;
      }
    }
  }

  ghost predicate MentionedIn(text: string, part: string) {
    exists before, after :: text == before + part + after
  }

  lemma ContainsIsMentioned(text: string, part: string)
    ensures Contains(text, part) <==> MentionedIn(text, part)
  {
    if Contains(text, part) {
      var i :| 0 <= i <= |text| - |part| && text[i..][..|part|] == part;
      assert text == text[..i] + part + text[i + |part|..];
    }
    if MentionedIn(text, part) {
      var before, after :| text == before + part + after;
      assert text[|before|..][..|part|] == part;
    }
  }

  /** A group is taken for youk's exactly when the scripts directory stands anywhere in
      one of its commands, a hook without a command counting as empty text. */
  lemma RecognisedExactly(group: Group, scriptsDir: string)
    ensures IsYouk(group, scriptsDir) <==>
              exists i :: 0 <= i < |group.commands|
                          && MentionedIn(if group.commands[i].Some? then group.commands[i].value else "", scriptsDir)
  {
    forall i | 0 <= i < |group.commands|
      ensures Contains(Text(group.commands[i]), scriptsDir)
              <==> MentionedIn(if group.commands[i].Some? then group.commands[i].value else "", scriptsDir)
    {
      ContainsIsMentioned(Text(group.commands[i]), scriptsDir);
    }
  }

  /** Recognition is by text, so a group of a neighbouring directory whose path starts
      the same way is taken for youk's and goes too. */
  lemma NeighbourIsTakenForOurs(scriptsDir: string, more: string, matcher: string)
    ensures IsYouk(Group(matcher, [Some(scriptsDir + more)]), scriptsDir)
    ensures Remove(Settings(Hooks(map["event" := [Group(matcher, [Some(scriptsDir + more)])]]), map[]), scriptsDir)
            == Settings(Missing, map[])
  {
    var text := scriptsDir + more;
    var group := Group(matcher, [Some(text)]);
    assert text[0..][..|scriptsDir|] == scriptsDir;
    assert Contains(Text(group.commands[0]), scriptsDir);
    var s := Settings(Hooks(map["event" := [group]]), map[]);
    forall e ensures e !in Current(Remove(s, scriptsDir)) {
      RemoveTakesOnlyOurs(s, scriptsDir, e);
    }
  }

  // ---- the command line -----------------------------------------------------------------------------------

  /** A settings file holds settings, or text that is no JSON. */
  datatype Doc = Json(settings: Settings) | Garbage(text: string)

  datatype Disk = Disk(file: Option<Doc>, backup: Option<Doc>)

  datatype Command = Command(remove: bool, dryRun: bool)

  function Updated(settings: Settings, hooks: Table, scriptsDir: string, remove: bool): Settings {
    if remove then Remove(settings, scriptsDir) else Install(settings, hooks, scriptsDir)
  }

  /** One run of the script: it never touches a file it cannot read, writes only when
      something changes, and copies the file aside before its first change. */
  function Invoke(disk: Disk, hooks: Table, scriptsDir: string, command: Command): Disk {
    if disk.file.Some? && disk.file.value.Garbage? then disk
    else
      var settings := if disk.file.Some? then disk.file.value.settings else Settings(Missing, map[]);
      var updated := Updated(settings, hooks, scriptsDir, command.remove);
      if updated == settings || command.dryRun then disk
      else Disk(Some(Json(updated)), if disk.file.Some? && disk.backup.None? then disk.file else disk.backup)
  }

  /** What a reader of the settings file finds. */
  function Found(file: Option<Doc>): Option<Settings> {
    match file
    case None => Some(Settings(Missing, map[]))
    case Some(Json(settings)) => Some(settings)
    case Some(Garbage(_)) => None
  }

  /** A run on a readable file that is no dry run leaves the settings installed or removed;
      every other run leaves the disk alone, and so does one that has nothing to change. */
  lemma InvokeLeaves(disk: Disk, hooks: Table, scriptsDir: string, command: Command)
    ensures var before, after := Found(disk.file), Invoke(disk, hooks, scriptsDir, command);
            if before.None? || command.dryRun then after == disk
            else
              && Found(after.file) == Some(if command.remove then Remove(before.value, scriptsDir)
                                           else Install(before.value, hooks, scriptsDir))
              && (Found(after.file) == before ==> after == disk)
              && (Found(after.file) != before && disk.file.Some? && disk.backup.None? ==> after.backup == disk.file)
              && (disk.file.None? || disk.backup.Some? ==> after.backup == disk.backup)
  {
  }

  lemma RemoveIdempotent(s: Settings, scriptsDir: string)
    ensures Remove(Remove(s, scriptsDir), scriptsDir) == Remove(s, scriptsDir)
  {
    var once := Remove(s, scriptsDir);
    var was, now := Current(once), Current(Remove(once, scriptsDir));
    forall e ensures At(now, e) == At(was, e) && (e in now <==> e in was) {
      RemoveTakesOnlyOurs(s, scriptsDir, e);
      RemoveTakesOnlyOurs(once, scriptsDir, e);
      ForeignThenOurs(At(Current(s), e), scriptsDir);
    }
    SameTable(now, was);
  }

  /** With a recognised registration, running the same command again changes nothing. */
  lemma InvokeTwice(disk: Disk, hooks: Table, scriptsDir: string, command: Command)
    requires AllOurs(hooks, scriptsDir)
    ensures var once := Invoke(disk, hooks, scriptsDir, command);
            Invoke(once, hooks, scriptsDir, command) == once
  {
    var before, once := Found(disk.file), Invoke(disk, hooks, scriptsDir, command);
    InvokeLeaves(disk, hooks, scriptsDir, command);
    InvokeLeaves(once, hooks, scriptsDir, command);
    if before.Some? && !command.dryRun {
      RemoveIdempotent(before.value, scriptsDir);
      InstallIdempotent(before.value, hooks, scriptsDir);
    }
  }

  function Invocations(disk: Disk, hooks: Table, scriptsDir: string, commands: seq<Command>): Disk {
    if commands == [] then disk
    else Invoke(Invocations(disk, hooks, scriptsDir, commands[..|commands| - 1]), hooks, scriptsDir,
                commands[|commands| - 1])
  }

  /** Over any runs: a settings file that was there is either still as it was, or kept
      whole in the backup; a backup is never overwritten; unreadable text is never
      touched. */
  lemma {:induction false} OriginalIsNeverLost(disk: Disk, hooks: Table, scriptsDir: string, commands: seq<Command>)
    ensures var after := Invocations(disk, hooks, scriptsDir, commands);
            && (disk.backup.Some? ==> after.backup == disk.backup)
            && (disk.file.Some? && disk.backup.None? ==> after == disk || after.backup == disk.file)
            && (disk.file.Some? && disk.file.value.Garbage? ==> after == disk)
            && (disk.file.Some? ==> after.file.Some?)
  {
    if commands != [] {
      OriginalIsNeverLost(disk, hooks, scriptsDir, commands[..|commands| - 1]);
    }
  }

  /** Where there was no settings file, the first registration makes none to copy, and the
      backup is taken at the next change: it then holds youk's own registration. */
  lemma BackupMayHoldOurOwnEntries(hooks: Table, scriptsDir: string)
    requires AllOurs(hooks, scriptsDir) && exists e :: e in hooks && hooks[e] != []
    ensures var commands := [Command(false, false), Command(true, false)];
            Invocations(Disk(None, None), hooks, scriptsDir, commands)
            == Disk(Some(Json(Settings(Missing, map[]))),
                    Some(Json(Install(Settings(Missing, map[]), hooks, scriptsDir))))
  {
    var blank := Settings(Missing, map[]);
    var installed := Install(blank, hooks, scriptsDir);
    var e :| e in hooks && hooks[e] != [];
    InstallChanges(blank, hooks, scriptsDir, e);
    RemoveUndoesInstallExactly(blank, hooks, scriptsDir);
    TwoInvocations(Disk(None, None), hooks, scriptsDir, Command(false, false), Command(true, false));
    assert Invoke(Disk(None, None), hooks, scriptsDir, Command(false, false)) == Disk(Some(Json(installed)), None);
  }

  /** Is the backup, if there is one, what was there before the script ever ran? */
  ghost predicate BackupIsOriginal(disk: Disk, hooks: Table, scriptsDir: string, commands: seq<Command>) {
    var backup := Invocations(disk, hooks, scriptsDir, commands).backup;
    backup == None || backup == disk.backup || backup == disk.file
  }

  /** No sequence of runs makes a backup of anything but the original exactly when there
      was a settings file, or a backup, to begin with. */
  lemma BackupIsOriginalExactly(disk: Disk, hooks: Table, scriptsDir: string)
    requires AllOurs(hooks, scriptsDir) && exists e :: e in hooks && hooks[e] != []
    ensures (forall commands :: BackupIsOriginal(disk, hooks, scriptsDir, commands))
            <==> disk.file.Some? || disk.backup.Some?
  {
    if disk.file.Some? || disk.backup.Some? {
      forall commands ensures BackupIsOriginal(disk, hooks, scriptsDir, commands) {
        BackupStaysOriginal(disk, hooks, scriptsDir, commands);
      }
    } else {
      var commands := BackupIsOurs(hooks, scriptsDir);
      assert !BackupIsOriginal(disk, hooks, scriptsDir, commands);
    }
  }

  lemma BackupStaysOriginal(disk: Disk, hooks: Table, scriptsDir: string, commands: seq<Command>)
    requires disk.file.Some? || disk.backup.Some?
    ensures BackupIsOriginal(disk, hooks, scriptsDir, commands)
  {
    OriginalIsNeverLost(disk, hooks, scriptsDir, commands);
  }

  lemma BackupIsOurs(hooks: Table, scriptsDir: string) returns (commands: seq<Command>)
    requires AllOurs(hooks, scriptsDir) && exists e :: e in hooks && hooks[e] != []
    ensures !BackupIsOriginal(Disk(None, None), hooks, scriptsDir, commands)
  {
    commands := [Command(false, false), Command(true, false)];
    BackupMayHoldOurOwnEntries(hooks, scriptsDir);
    NotOriginal(Disk(None, None), hooks, scriptsDir, commands);
  }

  lemma NotOriginal(disk: Disk, hooks: Table, scriptsDir: string, commands: seq<Command>)
    requires disk == Disk(None, None) && Invocations(disk, hooks, scriptsDir, commands).backup.Some?
    ensures !BackupIsOriginal(disk, hooks, scriptsDir, commands)
  {
  }

  lemma TwoInvocations(disk: Disk, hooks: Table, scriptsDir: string, first: Command, second: Command)
    ensures Invocations(disk, hooks, scriptsDir, [first, second])
            == Invoke(Invoke(disk, hooks, scriptsDir, first), hooks, scriptsDir, second)
  {
    var commands := [first, second];
    assert commands[..1] == [first] && [first][..0] == [];
    assert Invocations(disk, hooks, scriptsDir, []) == disk;
    assert Invocations(disk, hooks, scriptsDir, [first]) == Invoke(disk, hooks, scriptsDir, first);
  }

  lemma InstallChanges(s: Settings, hooks: Table, scriptsDir: string, event: string)
    requires At(Current(s), event) == [] && At(hooks, event) != []
    ensures Install(s, hooks, scriptsDir) != s
  {
    TableAt(Current(s), hooks, scriptsDir, event);
  }
}
