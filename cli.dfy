/** Decision rules of the `arkit8s.py` command line: how `main` routes its
    arguments, the command documents handed to the assistant, and the help
    text taken from the README. */
module Cli {
  import opened Wrappers
  import opened Seqs
  import opened Strings

  /** A command of a group; a missing description is the empty string. */
  datatype Command = Command(name: string, summary: string, description: string)

  /** An entry of `COMMAND_GROUPS`. */
  datatype Group = Group(name: string, commands: seq<Command>)

  function GroupNames(groups: seq<Group>): set<string> {
    set g | g in groups :: g.name
  }

  // ----- main -----

  /** Why a lone token is handed to the assistant. */
  datatype Reason = Incomplete | DirectQuery | Unrecognised

  /** What `main` does with its arguments. */
  datatype Route =
    | ShowHelp                               // the help is printed and the exit status is 1
    | Ask(question: string, reason: Reason)  // `_handle_assistant_question(question, reason=...)`
    | Parse(args: seq<string>)               // the arguments go to the argument parser

  predicate StartsWith(s: string, prefix: string) {
    |prefix| <= |s| && s[..|prefix|] == prefix
  }

  predicate EndsWith(s: string, suffix: string) {
    |suffix| <= |s| && s[|s| - |suffix|..] == suffix
  }

  const TrainAliasName := "train-assistant"

  /** `main(argv)` up to the argument parser: no arguments print the help;
      a leading `train-assistant` becomes `assistant train`; a lone token
      that is not an option goes to the assistant with the reason for it. */
  method Dispatch(argv: seq<string>, groups: seq<Group>) returns (route: Route)
    ensures argv == [] <==> route == ShowHelp
    ensures argv != [] && argv[0] == TrainAliasName ==> route == Parse(["assistant", "train"] + argv[1..])
    ensures argv != [] && argv[0] != TrainAliasName && route.Parse? ==> route.args == argv
    ensures route.Ask? <==> |argv| == 1 && argv[0] != TrainAliasName && !StartsWith(argv[0], "-")
    ensures route.Ask? ==> route.question == argv[0]
    ensures route.Ask? ==> (route.reason == Incomplete <==> argv[0] in GroupNames(groups))
    ensures route.Ask? ==>
      (route.reason == DirectQuery <==> argv[0] !in GroupNames(groups) && (' ' in argv[0] || EndsWith(argv[0], "?")))
  {
    var args := argv;
    if args == [] {
      return ShowHelp;
    }
    if args[0] == TrainAliasName {
      args := ["assistant", "train"] + args[1..];
    }
    if |args| == 1 && !StartsWith(args[0], "-") {
      var token := args[0];
      var reason: Reason;
      if token in GroupNames(groups) {
        reason := Incomplete;
      } else if ' ' in token || EndsWith(token, "?") {
        reason := DirectQuery;
      } else {
        reason := Unrecognised;
      }
      return Ask(token, reason);
    }
    return Parse(args);
  }

  /** The alias never reaches the assistant as a question, whatever
      follows it. */
  lemma TrainAliasIsParsed(argv: seq<string>, groups: seq<Group>, route: Route)
    requires argv != [] && argv[0] == TrainAliasName
    requires route == Parse(["assistant", "train"] + argv[1..])
    ensures |route.args| >= 2 && route.args[..2] == ["assistant", "train"] && route.args[2..] == argv[1..]
  {
  }

  // ----- _command_documents -----

  /** `(f"{group.name} {command.name}", f"{summary}. {description.strip()}".strip())`. */
  function Document(group: Group, command: Command): (string, string) {
    (group.name + " " + command.name, PyStrip(command.summary + ". " + PyStrip(command.description)))
  }

  const TrainAlias := (TrainAliasName, "Alias del comando assistant train que genera el modelo del asistente de arkit8s.")

  function GroupDocuments(group: Group): (r: seq<(string, string)>)
    ensures |r| == |group.commands|
  {
    seq(|group.commands|, i requires 0 <= i < |group.commands| => Document(group, group.commands[i]))
  }

  /** One document per command, group after group, in declaration order. */
  function Documents(groups: seq<Group>): seq<(string, string)> {
    ConcatMap(groups, GroupDocuments)
  }

  /** The document of command `j` of group `i` sits right after the
      documents of the groups before `i` and the commands before `j`. */
  lemma DocumentAt(groups: seq<Group>, i: nat, j: nat)
    requires i < |groups| && j < |groups[i].commands|
    ensures |Documents(groups[..i])| + j < |Documents(groups)|
    ensures Documents(groups)[|Documents(groups[..i])| + j] == Document(groups[i], groups[i].commands[j])
  {
    ConcatMapAt(groups, GroupDocuments, i, j);
  }

  /** The inner loop over the commands of one group. */
  method AppendGroup(docs0: seq<(string, string)>, group: Group) returns (docs: seq<(string, string)>)
    ensures docs == docs0 + GroupDocuments(group)
  {
    docs := docs0;
    for j := 0 to |group.commands|
      invariant docs == docs0 + GroupDocuments(group)[..j]
    {
      var command := group.commands[j];
      var name := group.name + " " + command.name;
      var description := PyStrip(command.summary + ". " + PyStrip(command.description));
      assert GroupDocuments(group)[..j + 1] == GroupDocuments(group)[..j] + [(name, description)];
      docs := docs + [(name, description)];
    }
    assert GroupDocuments(group)[..|group.commands|] == GroupDocuments(group);
  }

  /** `_command_documents()`: every command's document, then the alias. */
  method CommandDocuments(groups: seq<Group>) returns (docs: seq<(string, string)>)
    ensures docs == Documents(groups) + [TrainAlias]
  {
    docs := [];
    for i := 0 to |groups|
      invariant docs == ConcatMap(groups[..i], GroupDocuments)
    {
      assert groups[..i + 1][..i] == groups[..i];
      docs := AppendGroup(docs, groups[i]);
    }
    assert groups[..|groups|] == groups;
    docs := docs + [TrainAlias];
  }

  /** Only the last document is the alias: every other name joins a group
      and a command with a space, which the alias name lacks. */
  lemma AliasOnlyLast(groups: seq<Group>, k: nat)
    requires k < |Documents(groups)|
    ensures ' ' in Documents(groups)[k].0
    ensures Documents(groups)[k].0 != TrainAliasName
  {
    var i, j := ConcatMapLocate(groups, GroupDocuments, k);
    var name := Documents(groups)[k].0;
    assert name == groups[i].name + " " + groups[i].commands[j].name;
    assert name[|groups[i].name|] == ' ';
    assert ' ' !in TrainAliasName;
  }

  /** `_default_command_suggestions(limit)`: the first `limit` documents. */
  method DefaultSuggestions(groups: seq<Group>, limit: int) returns (r: seq<(string, string)>)
    ensures var all := Documents(groups) + [TrainAlias];
      && (0 <= limit ==> |r| == if limit <= |all| then limit else |all|)
      && (limit < 0 ==> |r| == if |all| + limit < 0 then 0 else |all| + limit)
      && r <= all
  {
    var docs := CommandDocuments(groups);
    r := PyTake(docs, limit);
  }

  // ----- _load_usage_text -----

  const HelpStartMarker := "<!-- BEGIN ARKIT8S HELP -->"
  const HelpEndMarker := "<!-- END ARKIT8S HELP -->"
  const UsageFallback := "arkit8s utility CLI"

  /** Python's `s[i:j]` for `0 <= i` and `j <= len(s)`: empty when the
      bounds cross. */
  function PySlice(s: string, i: nat, j: nat): (r: string)
    requires j <= |s|
    ensures i <= j ==> r == s[i..j]
    ensures j < i ==> r == []
    ensures i <= j ==> s == s[..i] + r + s[j..] && |r| == j - i
  {
    if i <= j then s[i..j] else []
  }

  /** The text between the markers, once both have been found in order. */
  function HelpBlock(content: string): string
    requires 0 <= Find(content, HelpStartMarker) < Find(content, HelpEndMarker)
  {
    PySlice(content, Find(content, HelpStartMarker) + |HelpStartMarker|, Find(content, HelpEndMarker))
  }

  /** `_load_usage_text()`, where `readme` is the README's text and `None`
      means the file is missing. */
  function UsageText(readme: Option<string>): (r: string)
    ensures r != []
    ensures readme.None? ==> r == UsageFallback
    ensures readme.Some? && !(0 <= Find(readme.value, HelpStartMarker) < Find(readme.value, HelpEndMarker)) ==>
      r == UsageFallback
    ensures readme.Some? && 0 <= Find(readme.value, HelpStartMarker) < Find(readme.value, HelpEndMarker) ==>
      (IsPyBlank(HelpBlock(readme.value)) ==> r == UsageFallback) &&
      (!IsPyBlank(HelpBlock(readme.value)) ==> r == PyStrip(HelpBlock(readme.value)))
  {
    match readme
    case None => UsageFallback
    case Some(content) =>
      var start := Find(content, HelpStartMarker);
      var end := Find(content, HelpEndMarker);
      if start == -1 || end == -1 || end <= start then UsageFallback
      else
        var raw := PySlice(content, start + |HelpStartMarker|, end);
        PyStripEmptyIff(raw);
        var block := PyStrip(raw);
        if block == [] then UsageFallback else block
  }

  /** `piece` occurs in `content` at position `i`. */
  predicate LiesAt(content: string, piece: string, i: nat) {
    i + |piece| <= |content| && content[i..i + |piece|] == piece
  }

  /** Neither end of `r` is whitespace. */
  predicate NoOuterWhitespace(r: string) {
    r == [] || (!IsPyWhitespace(r[0]) && !IsPyWhitespace(r[|r| - 1]))
  }

  /** When the README has both markers in order and something other than
      whitespace between them, the usage text is a piece of the README
      lying after the start marker and before the end marker, with no
      whitespace at either end. */
  lemma UsageBetweenMarkers(content: string)
    requires 0 <= Find(content, HelpStartMarker) < Find(content, HelpEndMarker)
    requires !IsPyBlank(HelpBlock(content))
    ensures var r, start, end := UsageText(Some(content)), Find(content, HelpStartMarker), Find(content, HelpEndMarker);
      var i := start + |HelpStartMarker| + StripOffset(HelpBlock(content), IsPyWhitespace);
      start + |HelpStartMarker| <= i && i + |r| <= end && LiesAt(content, r, i) && r != [] && NoOuterWhitespace(r)
  {
    var start, end := Find(content, HelpStartMarker), Find(content, HelpEndMarker);
    var block := HelpBlock(content);
    assert block == PySlice(content, start + |HelpStartMarker|, end);
    var r := UsageText(Some(content));
    assert r == PyStrip(block);
    MarkerSpelling();
    PieceBetween(content, HelpStartMarker, HelpEndMarker, start, end);
    var i := start + |HelpStartMarker| + StripOffset(block, IsPyWhitespace);
    assert LiesAt(content, r, i) && NoOuterWhitespace(r);
  }

  /** The end marker starts with `<`, which the start marker holds only in
      its first place. */
  lemma MarkerSpelling()
    ensures HelpEndMarker != [] && forall k :: 0 < k < |HelpStartMarker| ==> HelpStartMarker[k] != HelpEndMarker[0]
  {
  }

  /** `close` cannot begin inside `open` when only the first character of
      `open` can start it. */
  lemma MarkersApart(content: string, open: string, close: string, start: nat, end: nat)
    requires close != [] && forall k :: 0 < k < |open| ==> open[k] != close[0]
    requires OccursAt(content, open, start) && OccursAt(content, close, end)
    requires start < end
    ensures start + |open| <= end
  {
    assert content[end] == close[0] by {
      assert content[end..end + |close|][0] == content[end];
    }
    forall j | 0 <= j < |open|
      ensures content[start + j] == open[j]
    {
      assert content[start..start + |open|][j] == content[start + j];
    }
  }

  /** The stripped text between an `open` at `start` and a `close` at
      `end` lies between them in `content`, provided `close` cannot begin
      inside `open`. */
  lemma PieceBetween(content: string, open: string, close: string, start: nat, end: nat)
    requires close != [] && forall k :: 0 < k < |open| ==> open[k] != close[0]
    requires OccursAt(content, open, start) && OccursAt(content, close, end) && start < end
    ensures start + |open| <= end
    ensures var block := PySlice(content, start + |open|, end);
      var r, i := PyStrip(block), start + |open| + StripOffset(block, IsPyWhitespace);
      i + |r| <= end && LiesAt(content, r, i) && NoOuterWhitespace(r)
  {
    MarkersApart(content, open, close, start, end);
    StrippedPiece(content, start + |open|, end, PySlice(content, start + |open|, end));
  }

  /** Where the stripped text of `block`, the slice `content[from..end]`,
      lies in `content`. */
  lemma StrippedPiece(content: string, from: nat, end: nat, block: string)
    requires from <= end <= |content| && block == content[from..end]
    ensures var r, i := PyStrip(block), from + StripOffset(block, IsPyWhitespace);
      i + |r| <= end && LiesAt(content, r, i) && NoOuterWhitespace(r)
  {
    StripIsSlice(block, IsPyWhitespace);
    var off := StripOffset(block, IsPyWhitespace);
    var r := PyStrip(block);
    assert off + |r| <= |block| && r == block[off..off + |r|];
    forall k | 0 <= k < |r| ensures content[from + off + k] == r[k] {
      assert r[k] == block[off + k];
    }
  }
}
