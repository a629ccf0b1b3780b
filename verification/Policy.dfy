/** The selector policy: evaluation from inline entries and files, and the hot-swapped holder. */
module Policy {
  import opened Wrappers
  import opened Text
  import opened PolicyFile

  /** Evaluated rules. Allow-all is its own variant, so an empty list cannot mean "everything". */
  datatype PolicyRules =
    | AllowAll
    | AllowList(allowedKeys: seq<string>, allowedKeyPrefixes: seq<string>)
  {
    predicate Allows(key: string) {
      match this
      case AllowAll => true
      case AllowList(keys, prefixes) =>
        || (exists i :: 0 <= i < |keys| && keys[i] == key)
        || (exists i :: 0 <= i < |prefixes| && prefixes[i] <= key)
    }
  }

  /** The policy flags; the two booleans say whether a policy file path is configured. */
  datatype PolicyArgs = PolicyArgs(
    allowedKeys: seq<string>, allowedKeyPrefixes: seq<string>,
    keysFile: bool, prefixesFile: bool, allowAll: bool)

  /** Where the rules come from: inline entries fixed for good, files re-read on every evaluation. */
  datatype Sources = Sources(
    inlineKeys: seq<string>, inlineKeyPrefixes: seq<string>, keysFile: bool, prefixesFile: bool)
  {
    predicate HasFile() {
      keysFile || prefixesFile
    }
  }

  /** What the file system shows at one evaluation. */
  datatype Files = Files(keys: FileRead, prefixes: FileRead)

  datatype PolicyError =
    | NoPolicyConfigured
    | BothModesConfigured
    | BlankEntry
    | UnreadableFile
    | FileBackedButEmpty
    | EmptyAllowList

  function Normalize(entries: seq<string>): Result<seq<string>, PolicyError> {
    if entries == [] then Ok([]) else
      var entry := Trim(entries[0]);
      if entry == "" then Err(BlankEntry) else
        var rest :- Normalize(entries[1..]);
        Ok([entry] + rest)
  }

  function FileEntries(configured: bool, file: FileRead): Result<seq<string>, PolicyError> {
    if !configured then Ok([])
    else if file.Unreadable? then Err(UnreadableFile)
    else Ok(Parse(file.text))
  }

  function Evaluate(sources: Sources, files: Files): Result<PolicyRules, PolicyError> {
    var fromKeys :- FileEntries(sources.keysFile, files.keys);
    var fromPrefixes :- FileEntries(sources.prefixesFile, files.prefixes);
    var keys, prefixes := sources.inlineKeys + fromKeys, sources.inlineKeyPrefixes + fromPrefixes;
    if sources.HasFile() && keys == [] && prefixes == [] then Err(FileBackedButEmpty)
    else if keys == [] && prefixes == [] then Err(EmptyAllowList)
    else Ok(AllowList(keys, prefixes))
  }

  /** The startup evaluation. */
  function FromArgs(args: PolicyArgs, files: Files): Result<(PolicyRules, Sources), PolicyError> {
    var hasInline := args.allowedKeys != [] || args.allowedKeyPrefixes != [];
    var hasFile := args.keysFile || args.prefixesFile;
    if !args.allowAll && !hasInline && !hasFile then Err(NoPolicyConfigured)
    else if args.allowAll && (hasInline || hasFile) then Err(BothModesConfigured)
    else
      var keys :- Normalize(args.allowedKeys);
      var prefixes :- Normalize(args.allowedKeyPrefixes);
      var sources := Sources(keys, prefixes, args.keysFile, args.prefixesFile);
      if args.allowAll then Ok((AllowAll, sources)) else
        var rules :- Evaluate(sources, files);
        Ok((rules, sources))
  }

  /** The rules served after one reload, and what the reload reports. */
  function Reloaded(rules: PolicyRules, sources: Sources, files: Files): (PolicyRules, Result<bool, PolicyError>) {
    if !sources.HasFile() then (rules, Ok(false)) else
      match Evaluate(sources, files)
      case Err(e) => (rules, Err(e))
      case Ok(next) => if rules == next then (rules, Ok(false)) else (next, Ok(true))
  }

  // ---- The loops and the mutable holder ----

  lemma {:induction false} NormalizeSnoc(entries: seq<string>, entry: string)
    ensures Normalize(entries).Err? ==> Normalize(entries + [entry]).Err?
    ensures Normalize(entries).Ok? && Trim(entry) == "" ==> Normalize(entries + [entry]).Err?
    ensures Normalize(entries).Ok? && Trim(entry) != "" ==>
      Normalize(entries + [entry]) == Ok(Normalize(entries).value + [Trim(entry)])
    ensures Normalize(entries).Err? ==> Normalize(entries).error == BlankEntry
  {
    if entries == [] {
      assert entries + [entry] == [entry];
      assert Normalize([entry][1..]) == Ok([]);
      assert [Trim(entry)] + [] == [] + [Trim(entry)];
    } else {
      assert (entries + [entry])[1..] == entries[1..] + [entry];
      NormalizeSnoc(entries[1..], entry);
      if Normalize(entries).Ok? && Trim(entry) != "" {
        var head, rest := Trim(entries[0]), Normalize(entries[1..]).value;
        assert [head] + (rest + [Trim(entry)]) == [head] + rest + [Trim(entry)];
      }
    }
  }

  lemma {:induction false} NormalizeFailsFromPrefix(entries: seq<string>, i: nat)
    requires i <= |entries| && Normalize(entries[..i]).Err?
    ensures Normalize(entries) == Err(BlankEntry)
    decreases |entries| - i
  {
    if i < |entries| {
      assert entries[..i + 1] == entries[..i] + [entries[i]];
      NormalizeSnoc(entries[..i], entries[i]);
      NormalizeFailsFromPrefix(entries, i + 1);
    } else {
      assert entries[..i] == entries;
      NormalizeSnoc(entries, "");
    }
  }

  method NormalizePolicyEntries(entries: seq<string>) returns (r: Result<seq<string>, PolicyError>)
    ensures r == Normalize(entries)
  {
    var normalized := [];
    for i := 0 to |entries|
      invariant Normalize(entries[..i]) == Ok(normalized)
    {
      assert entries[..i + 1] == entries[..i] + [entries[i]];
      NormalizeSnoc(entries[..i], entries[i]);
      var entry := Trim(entries[i]);
      if entry == "" {
        NormalizeFailsFromPrefix(entries, i + 1);
        return Err(BlankEntry);
      }
      normalized := normalized + [entry];
    }
    assert entries[..|entries|] == entries;
    r := Ok(normalized);
  }

  method EvaluateSources(sources: Sources, files: Files) returns (r: Result<PolicyRules, PolicyError>)
    ensures r == Evaluate(sources, files)
  {
    var allowedKeys := sources.inlineKeys;
    if sources.keysFile {
      var read := ReadPolicyFile(files.keys);
      if read.Err? {
        return Err(UnreadableFile);
      }
      allowedKeys := allowedKeys + read.value;
    }
    var allowedKeyPrefixes := sources.inlineKeyPrefixes;
    if sources.prefixesFile {
      var read := ReadPolicyFile(files.prefixes);
      if read.Err? {
        return Err(UnreadableFile);
      }
      allowedKeyPrefixes := allowedKeyPrefixes + read.value;
    }
    assert !sources.keysFile ==> allowedKeys == sources.inlineKeys + [];
    assert !sources.prefixesFile ==> allowedKeyPrefixes == sources.inlineKeyPrefixes + [];
    if sources.HasFile() && allowedKeys == [] && allowedKeyPrefixes == [] {
      return Err(FileBackedButEmpty);
    }
    if allowedKeys == [] && allowedKeyPrefixes == [] {
      return Err(EmptyAllowList);
    }
    r := Ok(AllowList(allowedKeys, allowedKeyPrefixes));
  }

  /** The hot-swappable holder of the served rules. */
  class SelectorPolicy {
    var rules: PolicyRules
    const sources: Sources

    constructor FromRules(rules: PolicyRules, sources: Sources)
      ensures this.rules == rules && this.sources == sources
    {
      this.rules := rules;
      this.sources := sources;
    }

    method Snapshot() returns (r: PolicyRules)
      ensures r == rules
    {
      r := rules;
    }

    /** Re-evaluates the sources and swaps the served rules when they differ. */
    method Reload(files: Files) returns (changed: Result<bool, PolicyError>)
      modifies this
      ensures (rules, changed) == Reloaded(old(rules), sources, files)
    {
      if !sources.HasFile() {
        return Ok(false);
      }
      var next := EvaluateSources(sources, files);
      if next.Err? {
        return Err(next.error);
      }
      var current := Snapshot();
      if current == next.value {
        return Ok(false);
      }
      rules := next.value;
      changed := Ok(true);
    }
  }

  // ---- What the policy promises ----

  /** Who may ask for what, in the words of the documentation. */
  ghost predicate Granted(sources: Sources, files: Files, key: string) {
    || key in sources.inlineKeys
    || (sources.keysFile && files.keys.Contents? && key in Parse(files.keys.text))
    || (exists p :: p in sources.inlineKeyPrefixes && p <= key)
    || (sources.prefixesFile && files.prefixes.Contents? && exists p :: p in Parse(files.prefixes.text) && p <= key)
  }

  /** An evaluated policy grants exactly the union of the inline entries and the files' entries. */
  lemma EvaluateGrantsTheUnion(sources: Sources, files: Files, key: string)
    requires Evaluate(sources, files).Ok?
    ensures Evaluate(sources, files).value.Allows(key) <==> Granted(sources, files, key)
  {
    var AllowList(keys, prefixes) := Evaluate(sources, files).value;
    assert (exists i :: 0 <= i < |keys| && keys[i] == key) <==> key in keys;
    var listed := FileEntries(sources.prefixesFile, files.prefixes).value;
    assert prefixes == sources.inlineKeyPrefixes + listed;
    forall p | p in prefixes && p <= key
      ensures p in sources.inlineKeyPrefixes || p in listed
    {
    }
    if i :| 0 <= i < |prefixes| && prefixes[i] <= key {
      assert prefixes[i] in prefixes;
    }
    if p :| (p in sources.inlineKeyPrefixes || p in listed) && p <= key {
      assert p in prefixes;
      var i :| 0 <= i < |prefixes| && prefixes[i] == p;
    }
  }

  /** Evaluation fails exactly when a configured file cannot be read or nothing at all is listed. */
  lemma EvaluateFailsExactly(sources: Sources, files: Files)
    ensures Evaluate(sources, files).Err? <==>
      || (sources.keysFile && files.keys.Unreadable?)
      || (sources.prefixesFile && files.prefixes.Unreadable?)
      || (&& sources.inlineKeys == [] && sources.inlineKeyPrefixes == []
          && (sources.keysFile ==> Parse(files.keys.text) == [])
          && (sources.prefixesFile ==> Parse(files.prefixes.text) == []))
    ensures Evaluate(sources, files) == Err(UnreadableFile) <==>
      (sources.keysFile && files.keys.Unreadable?) || (sources.prefixesFile && files.prefixes.Unreadable?)
    ensures Evaluate(sources, files) == Err(EmptyAllowList) <==>
      sources.inlineKeys == [] && sources.inlineKeyPrefixes == [] && !sources.keysFile && !sources.prefixesFile
    ensures Evaluate(sources, files).Err? ==>
      Evaluate(sources, files).error in {UnreadableFile, EmptyAllowList, FileBackedButEmpty}
  {
  }

  /** The rules served after reloads that saw the given files, one after the other. */
  function AfterReloads(rules: PolicyRules, sources: Sources, seen: seq<Files>): PolicyRules {
    if seen == [] then rules
    else Reloaded(AfterReloads(rules, sources, seen[..|seen| - 1]), sources, seen[|seen| - 1]).0
  }

  /** The files of the last evaluation that succeeded, startup included. */
  function LastGood(sources: Sources, startup: Files, seen: seq<Files>): Files {
    if seen == [] then startup
    else if Evaluate(sources, seen[|seen| - 1]).Ok? then seen[|seen| - 1]
    else LastGood(sources, startup, seen[..|seen| - 1])
  }

  /** What one reload may do: nothing at all unless it evaluates to something new. */
  lemma ReloadKeepsOrReplaces(rules: PolicyRules, sources: Sources, files: Files)
    ensures var (next, outcome) := Reloaded(rules, sources, files);
            && (outcome == Ok(true) <==> next != rules)
            && (outcome != Ok(true) ==> forall key :: next.Allows(key) == rules.Allows(key))
            && (outcome == Ok(true) ==> Evaluate(sources, files) == Ok(next))
            && (outcome.Err? <==> sources.HasFile() && Evaluate(sources, files).Err?)
  {
  }

  /** From any accepted startup and through any reloads, whatever the files did in between. */
  lemma {:induction false} PolicyOverRuns(args: PolicyArgs, startup: Files, seen: seq<Files>)
    requires FromArgs(args, startup).Ok?
    ensures var (first, sources) := FromArgs(args, startup).value;
            var rules := AfterReloads(first, sources, seen);
            var good := LastGood(sources, startup, seen);
            && (rules.AllowAll? <==> args.allowAll)
            && (!args.allowAll ==> Evaluate(sources, good) == Ok(rules))
            && (rules.AllowList? ==> rules.allowedKeys != [] || rules.allowedKeyPrefixes != [])
  {
    var (first, sources) := FromArgs(args, startup).value;
    if seen != [] {
      var init, files := seen[..|seen| - 1], seen[|seen| - 1];
      PolicyOverRuns(args, startup, init);
      assert args.allowAll ==> !sources.HasFile();
      ServedAfterReload(AfterReloads(first, sources, init), sources, LastGood(sources, startup, init), files);
    }
  }

  /** One more reload: the rules still are those of the last good files, and a list is never empty. */
  lemma ServedAfterReload(rules: PolicyRules, sources: Sources, good: Files, files: Files)
    requires if rules.AllowAll? then !sources.HasFile() else Evaluate(sources, good) == Ok(rules)
    ensures var next := Reloaded(rules, sources, files).0;
            var good' := if Evaluate(sources, files).Ok? then files else good;
            && (next.AllowAll? <==> rules.AllowAll?)
            && (next.AllowList? ==> Evaluate(sources, good') == Ok(next))
            && (next.AllowList? ==> next.allowedKeys != [] || next.allowedKeyPrefixes != [])
  {
  }

  lemma {:induction false} NormalizeFailsExactly(entries: seq<string>)
    ensures Normalize(entries).Err? <==> exists i :: 0 <= i < |entries| && AllWhitespace(entries[i])
    ensures Normalize(entries).Err? ==> Normalize(entries).error == BlankEntry
  {
    if entries != [] {
      TrimToNothing(entries[0]);
      NormalizeFailsExactly(entries[1..]);
      assert forall i :: 1 <= i < |entries| ==> entries[i] == entries[1..][i - 1];
      if i :| 0 <= i < |entries[1..]| && AllWhitespace(entries[1..][i]) {
        assert AllWhitespace(entries[i + 1]);
      }
    }
  }

  /** Some inline entry has nothing visible in it. */
  predicate HasBlankEntry(args: PolicyArgs) {
    || (exists i :: 0 <= i < |args.allowedKeys| && AllWhitespace(args.allowedKeys[i]))
    || (exists i :: 0 <= i < |args.allowedKeyPrefixes| && AllWhitespace(args.allowedKeyPrefixes[i]))
  }

  /** Something is configured that lists items. */
  predicate Lists(args: PolicyArgs) {
    args.allowedKeys != [] || args.allowedKeyPrefixes != [] || args.keysFile || args.prefixesFile
  }

  /**
   When startup accepts the policy: allow-all and nothing else, or a list without blank inline entries, from readable
   files, that lists something. The inline entries are kept trimmed and in order.
   */
  lemma StartupPolicyExactly(args: PolicyArgs, files: Files)
    ensures FromArgs(args, files).Ok? <==>
      if args.allowAll then !Lists(args)
      else
        && Lists(args) && !HasBlankEntry(args)
        && (args.keysFile ==> files.keys.Contents?) && (args.prefixesFile ==> files.prefixes.Contents?)
        && (args.allowedKeys != [] || args.allowedKeyPrefixes != []
            || (args.keysFile && Parse(files.keys.text) != []) || (args.prefixesFile && Parse(files.prefixes.text) != []))
    ensures FromArgs(args, files).Ok? ==>
      var (rules, sources) := FromArgs(args, files).value;
      && (rules.AllowAll? <==> args.allowAll)
      && sources.keysFile == args.keysFile && sources.prefixesFile == args.prefixesFile
      && TrimmedCopy(args.allowedKeys, sources.inlineKeys) && TrimmedCopy(args.allowedKeyPrefixes, sources.inlineKeyPrefixes)
    ensures FromArgs(args, files) == Err(NoPolicyConfigured) <==> !args.allowAll && !Lists(args)
    ensures FromArgs(args, files) == Err(BothModesConfigured) <==> args.allowAll && Lists(args)
    ensures FromArgs(args, files) == Err(BlankEntry) <==> !args.allowAll && HasBlankEntry(args)
  {
    NormalizeFailsExactly(args.allowedKeys);
    NormalizeFailsExactly(args.allowedKeyPrefixes);
    if Normalize(args.allowedKeys).Ok? && Normalize(args.allowedKeyPrefixes).Ok? {
      var keys, prefixes := Normalize(args.allowedKeys).value, Normalize(args.allowedKeyPrefixes).value;
      NormalizeCopies(args.allowedKeys);
      NormalizeCopies(args.allowedKeyPrefixes);
      EvaluateFailsExactly(Sources(keys, prefixes, args.keysFile, args.prefixesFile), files);
    }
  }

  /** The same entries, trimmed. */
  ghost predicate TrimmedCopy(entries: seq<string>, copy: seq<string>) {
    |copy| == |entries| && forall i :: 0 <= i < |copy| ==> TrimsTo(entries[i], copy[i])
  }

  lemma NormalizeCopies(entries: seq<string>)
    requires Normalize(entries).Ok?
    ensures TrimmedCopy(entries, Normalize(entries).value)
  {
    NormalizeTrims(entries);
    forall i | 0 <= i < |entries|
      ensures TrimsTo(entries[i], Normalize(entries).value[i])
    {
      TrimExactly(entries[i], Trim(entries[i]));
    }
  }

  /** A file that holds no entry, or is not configured. */
  predicate Emptied(configured: bool, file: FileRead) {
    configured ==> file.Contents? && Parse(file.text) == []
  }

  /**
   Files emptied under a running provider: whatever was served before, the reload serves the inline entries alone, or
   keeps the rules when there are none. So it never allows a key that was not allowed before.
   */
  lemma EmptiedFilesNarrow(args: PolicyArgs, startup: Files, seen: seq<Files>, files: Files)
    requires FromArgs(args, startup).Ok?
    requires Emptied(args.keysFile, files.keys) && Emptied(args.prefixesFile, files.prefixes)
    ensures var (first, sources) := FromArgs(args, startup).value;
            var rules := AfterReloads(first, sources, seen);
            var next := AfterReloads(first, sources, seen + [files]);
            && (forall key :: next.Allows(key) ==> rules.Allows(key))
            && (sources.HasFile() && (sources.inlineKeys != [] || sources.inlineKeyPrefixes != []) ==>
                  next == AllowList(sources.inlineKeys, sources.inlineKeyPrefixes))
  {
    var (first, sources) := FromArgs(args, startup).value;
    var rules := AfterReloads(first, sources, seen);
    assert (seen + [files])[..|seen|] == seen;
    PolicyOverRuns(args, startup, seen);
    EmptiedReload(sources, rules, LastGood(sources, startup, seen), files);
  }

  lemma EmptiedReload(sources: Sources, rules: PolicyRules, good: Files, files: Files)
    requires if rules.AllowAll? then !sources.HasFile() else Evaluate(sources, good) == Ok(rules)
    requires Emptied(sources.keysFile, files.keys) && Emptied(sources.prefixesFile, files.prefixes)
    ensures var next := Reloaded(rules, sources, files).0;
            && (forall key :: next.Allows(key) ==> rules.Allows(key))
            && (sources.HasFile() && (sources.inlineKeys != [] || sources.inlineKeyPrefixes != []) ==>
                  next == AllowList(sources.inlineKeys, sources.inlineKeyPrefixes))
  {
    var next := Reloaded(rules, sources, files).0;
    assert sources.inlineKeys + [] == sources.inlineKeys;
    assert sources.inlineKeyPrefixes + [] == sources.inlineKeyPrefixes;
    if next != rules {
      assert next == AllowList(sources.inlineKeys, sources.inlineKeyPrefixes);
      PrefixesAllowLess(next, rules);
    }
  }

  /** Longer lists allow no less. */
  lemma PrefixesAllowLess(a: PolicyRules, b: PolicyRules)
    requires a.AllowList? && b.AllowList?
    requires a.allowedKeys <= b.allowedKeys && a.allowedKeyPrefixes <= b.allowedKeyPrefixes
    ensures forall key :: a.Allows(key) ==> b.Allows(key)
  {
    forall key | a.Allows(key)
      ensures b.Allows(key)
    {
      if i :| 0 <= i < |a.allowedKeys| && a.allowedKeys[i] == key {
        assert b.allowedKeys[i] == key;
      } else {
        var j :| 0 <= j < |a.allowedKeyPrefixes| && a.allowedKeyPrefixes[j] <= key;
        assert b.allowedKeyPrefixes[j] <= key;
      }
    }
  }

  lemma {:induction false} NormalizeTrims(entries: seq<string>)
    requires Normalize(entries).Ok?
    ensures |Normalize(entries).value| == |entries|
    ensures forall i :: 0 <= i < |entries| ==> Normalize(entries).value[i] == Trim(entries[i]) != ""
  {
    if entries != [] {
      NormalizeTrims(entries[1..]);
    }
  }

  /** Every inline entry keeps granting its items for the whole life of the process. */
  lemma InlineEntriesStayAllowed(args: PolicyArgs, startup: Files, seen: seq<Files>, i: nat)
    requires FromArgs(args, startup).Ok?
    ensures var (first, sources) := FromArgs(args, startup).value;
            var rules := AfterReloads(first, sources, seen);
            && (i < |args.allowedKeys| ==> rules.Allows(Trim(args.allowedKeys[i])))
            && (i < |args.allowedKeyPrefixes| ==>
                  forall key :: Trim(args.allowedKeyPrefixes[i]) <= key ==> rules.Allows(key))
  {
    PolicyOverRuns(args, startup, seen);
    NormalizeTrims(args.allowedKeys);
    NormalizeTrims(args.allowedKeyPrefixes);
    var (first, sources) := FromArgs(args, startup).value;
    var rules := AfterReloads(first, sources, seen);
    if rules.AllowList? {
      assert i < |args.allowedKeys| ==> rules.allowedKeys[i] == Trim(args.allowedKeys[i]);
      assert i < |args.allowedKeyPrefixes| ==> rules.allowedKeyPrefixes[i] == Trim(args.allowedKeyPrefixes[i]);
    }
  }

  /** At every moment a key is allowed exactly when the last files read successfully, or the inline entries, grant it. */
  lemma DecisionsFollowLastGood(args: PolicyArgs, startup: Files, seen: seq<Files>, key: string)
    requires FromArgs(args, startup).Ok?
    ensures var (first, sources) := FromArgs(args, startup).value;
            AfterReloads(first, sources, seen).Allows(key) <==>
              args.allowAll || Granted(sources, LastGood(sources, startup, seen), key)
  {
    PolicyOverRuns(args, startup, seen);
    var (first, sources) := FromArgs(args, startup).value;
    if !args.allowAll {
      EvaluateGrantsTheUnion(sources, LastGood(sources, startup, seen), key);
    }
  }
}
