/** The interactive loop's handling of one input line: trim it, classify it by
    the anchored patterns in their fixed order, and act on it. The only state
    kept between lines is the selected bucket. */
module Commands {
  import opened Wrappers
  import TableRender
  import Query

  /** `unicode.IsSpace`, which `strings.TrimSpace` trims. */
  predicate IsSpace(c: char)
  {
    || c == '\t' || c == '\n' || c == '\U{0B}' || c == '\U{0C}' || c == '\r' || c == ' '
    || c == '\U{85}' || c == '\U{A0}' || c == '\U{1680}'
    || ('\U{2000}' <= c <= '\U{200A}')
    || c == '\U{2028}' || c == '\U{2029}' || c == '\U{202F}' || c == '\U{205F}' || c == '\U{3000}'
  }

  /** `\s` of the regular-expression syntax: ASCII space, tab, newline,
      form feed and carriage return only. */
  predicate IsReSpace(c: char)
  {
    c == '\t' || c == '\n' || c == '\U{0C}' || c == '\r' || c == ' '
  }

  /** `[a-zA-Z0-9]`. */
  predicate IsAlnum(c: char)
  {
    ('a' <= c <= 'z') || ('A' <= c <= 'Z') || ('0' <= c <= '9')
  }

  predicate AllAlnum(s: string)
  {
    forall i :: 0 <= i < |s| ==> IsAlnum(s[i])
  }

  /** `strings.TrimRight(s, "\n")`: drop every trailing newline. */
  function TrimRightNewlines(s: string): (r: string)
    ensures |r| <= |s| && r == s[..|r|]
    ensures forall i :: |r| <= i < |s| ==> s[i] == '\n'
    ensures r == [] || r[|r| - 1] != '\n'
  {
    if s != [] && s[|s| - 1] == '\n' then TrimRightNewlines(s[..|s| - 1]) else s
  }

  /** Leading white space removed. */
  function TrimLeftSpace(s: string): (r: string)
    ensures |r| <= |s| && r == s[|s| - |r|..]
    ensures forall i :: 0 <= i < |s| - |r| ==> IsSpace(s[i])
    ensures r == [] || !IsSpace(r[0])
  {
    if s != [] && IsSpace(s[0]) then
      var r := TrimLeftSpace(s[1..]);
      assert r == s[|s| - |r|..] by {
        assert s[1..][|s| - 1 - |r|..] == s[|s| - |r|..];
      }
      r
    else s
  }

  /** Trailing white space removed. */
  function TrimRightSpace(s: string): (r: string)
    ensures |r| <= |s| && r == s[..|r|]
    ensures forall i :: |r| <= i < |s| ==> IsSpace(s[i])
    ensures r == [] || !IsSpace(r[|r| - 1])
  {
    if s != [] && IsSpace(s[|s| - 1]) then TrimRightSpace(s[..|s| - 1]) else s
  }

  /** `strings.TrimSpace`. */
  function TrimSpace(s: string): string
  {
    TrimRightSpace(TrimLeftSpace(s))
  }

  /** The command text of a line as read (it ends with its newline). */
  function Clean(line: string): string
  {
    TrimSpace(TrimRightNewlines(line))
  }

  /** What a cleaned line asks for. */
  datatype Command =
    | Blank
    | ShowBuckets
    | Use(name: string)
    | Key(prefix: string)
    | BucketKey(name: string, prefix: string)
    | Quit
    | Unknown

  /** The length of the longest run of `[a-zA-Z0-9]` at the start of `s`. */
  function AlnumRun(s: string): (n: nat)
    ensures n <= |s|
    ensures AllAlnum(s[..n])
    ensures n < |s| ==> !IsAlnum(s[n])
  {
    if s != [] && IsAlnum(s[0]) then
      assert s[..1 + AlnumRun(s[1..])] == [s[0]] + s[1..][..AlnumRun(s[1..])];
      1 + AlnumRun(s[1..])
    else 0
  }

  /** What `(.*)` captures without a trailing `$`: everything up to the first
      newline. */
  function UpToNewline(s: string): (r: string)
    ensures r <= s
    ensures '\n' !in r
    ensures |r| < |s| ==> s[|r|] == '\n'
  {
    if s == [] || s[0] == '\n' then [] else [s[0]] + UpToNewline(s[1..])
  }

  /** `^use=([a-zA-Z0-9]*)$`. */
  function MatchUse(c: string): Option<string>
  {
    if "use=" <= c && AllAlnum(c[4..]) then Some(c[4..]) else None
  }

  /** `^key=(.*)$`. */
  function MatchKey(c: string): Option<string>
  {
    if "key=" <= c && '\n' !in c[4..] then Some(c[4..]) else None
  }

  /** `^bucket=([a-zA-Z0-9]*)\skey=(.*)`: the name is the whole run of letters
      and digits (a shorter one would leave a letter or digit where `\s`
      must match), then one white-space character, then `key=`; the prefix
      runs to the first newline, and the rest of the line is ignored. */
  function MatchBucketKey(c: string): Option<(string, string)>
  {
    if "bucket=" <= c then
      var r := c[7..];
      var n := AlnumRun(r);
      if n < |r| && IsReSpace(r[n]) && "key=" <= r[n + 1..] then
        Some((r[..n], UpToNewline(r[n + 5..])))
      else None
    else None
  }

  /** The patterns, tried in the order of the source: an empty line is
      blank; `use=` selects a name of letters and digits; `key=` takes the
      rest of the line as the prefix; the bucket pattern splits the line into
      a name and a prefix; `quit` is only the exact word. */
  function Parse(c: string): (cmd: Command)
    ensures cmd.Blank? <==> c == ""
    ensures cmd.ShowBuckets? <==> c == "show buckets"
    ensures cmd.Use? ==> "use=" <= c && cmd.name == c[4..] && AllAlnum(cmd.name)
    ensures cmd.Key? ==> "key=" <= c && cmd.prefix == c[4..] && '\n' !in cmd.prefix
    ensures cmd.BucketKey? ==> BucketLine(c, cmd.name, cmd.prefix)
    ensures cmd.Quit? <==> c == "quit"
  {
    QuitMatchesNoPattern();
    if c == "" then Blank
    else if c == "show buckets" then ShowBuckets
    else if MatchUse(c).Some? then Use(MatchUse(c).value)
    else if MatchKey(c).Some? then Key(MatchKey(c).value)
    else if MatchBucketKey(c).Some? then
      BucketKeyParts(c);
      BucketKey(MatchBucketKey(c).value.0, MatchBucketKey(c).value.1)
    else if c == "quit" then Quit
    else Unknown
  }

  /** `quit` is neither a selection nor a query. */
  lemma QuitMatchesNoPattern()
    ensures MatchUse("quit").None? && MatchKey("quit").None? && MatchBucketKey("quit").None?
  {
    var c := "quit";
    assert c[0] == 'q';
  }

  /** The canonical text of a command. */
  function Format(cmd: Command): string
    requires !cmd.Unknown?
  {
    match cmd
    case Blank => ""
    case ShowBuckets => "show buckets"
    case Use(name) => "use=" + name
    case Key(prefix) => "key=" + prefix
    case BucketKey(name, prefix) => "bucket=" + name + " key=" + prefix
    case Quit => "quit"
  }

  /** A prefix typed on one line, with no white space at its end. */
  predicate TypedPrefix(p: string)
  {
    '\n' !in p && (p == [] || !IsSpace(p[|p| - 1]))
  }

  /** The commands a line can spell. */
  predicate WellFormed(cmd: Command)
  {
    match cmd
    case Use(name) => AllAlnum(name)
    case Key(prefix) => TypedPrefix(prefix)
    case BucketKey(name, prefix) => AllAlnum(name) && TypedPrefix(prefix)
    case Unknown => false
    case _ => true
  }

  // ---------------------------------------------------------------------------
  // Properties

  /** Text that starts and ends with a non-space character survives cleaning. */
  lemma CleanKeeps(c: string)
    requires c == [] || (!IsSpace(c[0]) && !IsSpace(c[|c| - 1]))
    ensures Clean(c + "\n") == c
  {
    assert (c + "\n")[..|c|] == c;
  }

  /** A cleaned line is trimmed at both ends, so cleaning it again (as typed
      on a line of its own) changes nothing. */
  lemma CleanIdempotent(line: string)
    ensures var c := Clean(line); c == [] || (!IsSpace(c[0]) && !IsSpace(c[|c| - 1]))
    ensures Clean(Clean(line) + "\n") == Clean(line)
  {
    var c := Clean(line);
    var t := TrimLeftSpace(TrimRightNewlines(line));
    assert c == [] || c[0] == t[0];
    CleanKeeps(c);
  }

  /** The run of letters and digits stops at the first other character. */
  lemma {:induction false} AlnumRunStops(name: string, rest: string)
    requires AllAlnum(name)
    requires rest != [] && !IsAlnum(rest[0])
    ensures AlnumRun(name + rest) == |name|
  {
    if name != [] {
      assert (name + rest)[1..] == name[1..] + rest;
      AlnumRunStops(name[1..], rest);
    }
  }

  /** `c` is `bucket=`, then `name`, one white-space character, `key=`, then
      `prefix`, then the end of the line or a newline. */
  ghost predicate BucketLine(c: string, name: string, prefix: string)
  {
    var n, p := |name|, |prefix|;
    && 12 + n + p <= |c|
    && c[..7] == "bucket=" && c[7..7 + n] == name && AllAlnum(name)
    && IsReSpace(c[7 + n]) && c[8 + n..12 + n] == "key="
    && c[12 + n..12 + n + p] == prefix && '\n' !in prefix
    && (12 + n + p == |c| || c[12 + n + p] == '\n')
  }

  /** Any line of that shape is parsed into the name and the prefix the
      pattern captures. */
  lemma BucketKeyMatches(c: string, name: string, prefix: string)
    requires BucketLine(c, name, prefix)
    ensures MatchBucketKey(c) == Some((name, prefix))
  {
    var n := |name|;
    var r := c[7..];
    assert "bucket=" <= c by {
      assert c[..7] == "bucket=";
    }
    NameRun(c, name);
    assert r[n] == c[7 + n];
    SliceShift(c, 7, n + 1, n + 5);
    assert "key=" <= r[n + 1..] by {
      assert r[n + 1..][..4] == r[n + 1..n + 5];
    }
    PrefixCapture(c, n, prefix);
  }

  /** The name runs from the `=` of `bucket=` up to the white space. */
  lemma NameRun(c: string, name: string)
    requires 8 + |name| <= |c| && c[7..7 + |name|] == name && AllAlnum(name) && IsReSpace(c[7 + |name|])
    ensures AlnumRun(c[7..]) == |name| && c[7..][..|name|] == name
  {
    var r := c[7..];
    SliceShift(c, 7, 0, |name|);
    assert r == name + r[|name|..];
    AlnumRunStops(name, r[|name|..]);
  }

  /** The prefix runs from after `key=` to the end of the line or a newline. */
  lemma PrefixCapture(c: string, n: nat, prefix: string)
    requires 12 + n + |prefix| <= |c| && c[12 + n..12 + n + |prefix|] == prefix && '\n' !in prefix
    requires 12 + n + |prefix| == |c| || c[12 + n + |prefix|] == '\n'
    ensures UpToNewline(c[7..][n + 5..]) == prefix
  {
    var tail := c[7..][n + 5..];
    assert tail == c[12 + n..];
    assert tail == prefix + tail[|prefix|..];
    UpToNewlineStops(prefix, tail[|prefix|..]);
  }

  lemma {:induction false} UpToNewlineStops(prefix: string, rest: string)
    requires '\n' !in prefix
    requires rest == [] || rest[0] == '\n'
    ensures UpToNewline(prefix + rest) == prefix
  {
    if prefix != [] {
      assert (prefix + rest)[1..] == prefix[1..] + rest;
      UpToNewlineStops(prefix[1..], rest);
    }
  }

  /** Conversely, a bucket-pattern match splits the line into exactly those
      parts. */
  lemma BucketKeyParts(c: string)
    requires MatchBucketKey(c).Some?
    ensures BucketLine(c, MatchBucketKey(c).value.0, MatchBucketKey(c).value.1)
  {
    var r := c[7..];
    var n := AlnumRun(r);
    assert "key=" <= r[n + 1..];
    assert |r| >= n + 5;
    var tail := r[n + 5..];
    var p := UpToNewline(tail);
    SliceShift(c, 7, 0, n);
    SliceShift(c, 7, n + 1, n + 5);
    assert r[n + 1..n + 5] == r[n + 1..][..4];
    SliceShift(c, 7, n + 5, |r|);
    assert c[12 + n..] == tail;
    assert c[12 + n..12 + n + |p|] == tail[..|p|];
  }

  lemma SliceShift(s: string, k: nat, a: nat, b: nat)
    requires a <= b && k + b <= |s|
    ensures s[k..][a..b] == s[k + a..k + b]
  {
  }

  /** Parsing the text of a command, as typed on a line, gives the command
      back. */
  lemma ParseFormat(cmd: Command)
    requires WellFormed(cmd)
    ensures Parse(Clean(Format(cmd) + "\n")) == cmd
  {
    FormatTrimmed(cmd);
    CleanKeeps(Format(cmd));
    ParseCanonical(cmd);
  }

  /** The text of a command neither starts nor ends with white space. */
  lemma FormatTrimmed(cmd: Command)
    requires WellFormed(cmd)
    ensures var c := Format(cmd); c == [] || (!IsSpace(c[0]) && !IsSpace(c[|c| - 1]))
  {
    var c := Format(cmd);
    match cmd
    case Blank =>
    case ShowBuckets =>
    case Quit =>
    case Use(name) =>
      assert c[|c| - 1] == if name == [] then '=' else name[|name| - 1];
    case Key(prefix) =>
      assert c[|c| - 1] == if prefix == [] then '=' else prefix[|prefix| - 1];
    case BucketKey(name, prefix) =>
      assert c[|c| - 1] == if prefix == [] then '=' else prefix[|prefix| - 1];
  }

  /** The patterns, in their order, classify the text of a command as that
      command. */
  lemma ParseCanonical(cmd: Command)
    requires WellFormed(cmd)
    ensures Parse(Format(cmd)) == cmd
  {
    match cmd
    case Blank =>
    case ShowBuckets =>
    case Quit =>
      var c := Format(cmd);
      assert c[0] == 'q' && |c| == 4;
      assert !("use=" <= c) && !("key=" <= c);
    case Use(name) =>
      var c := Format(cmd);
      assert c[4..] == name;
      assert c[..4] == "use=";
      assert c[0] == 'u' && c != "show buckets";
      assert MatchUse(c) == Some(name);
    case Key(prefix) =>
      var c := Format(cmd);
      assert c[4..] == prefix;
      assert c[..4] == "key=";
      assert c != "show buckets" && c[..4] != "use=";
    case BucketKey(name, prefix) =>
      TypedBucketLine(name, prefix);
  }

  lemma TypedBucketLine(name: string, prefix: string)
    requires AllAlnum(name) && '\n' !in prefix
    ensures Parse("bucket=" + name + " key=" + prefix) == BucketKey(name, prefix)
  {
    var c := "bucket=" + name + " key=" + prefix;
    TypedBucketShape(name, prefix);
    BucketKeyMatches(c, name, prefix);
    assert c[..4] == "buck";
    assert c != "show buckets" && c[..4] != "use=" && c[..4] != "key=";
  }

  lemma TypedBucketShape(name: string, prefix: string)
    requires AllAlnum(name) && '\n' !in prefix
    ensures BucketLine("bucket=" + name + " key=" + prefix, name, prefix)
  {
    var c := "bucket=" + name + " key=" + prefix;
    var n := |name|;
    assert c[..7] == "bucket=";
    assert c[7..7 + n] == name;
    assert c[7 + n] == ' ';
    assert c[8 + n..12 + n] == "key=";
    assert c[12 + n..] == prefix;
  }

  // ---------------------------------------------------------------------------
  // The session

  /** What one line makes the program print or do. */
  datatype Reply =
    | Nothing
    | ListBuckets
    | Say(text: string)
    | Tables(tables: seq<TableRender.Rendered>)
    | Exit

  /** The reply to a query of bucket `name` with `prefix`: the error message,
      or the tables of the matching entries. */
  ghost predicate Answers(store: seq<Query.Bucket>, name: string, prefix: string, reply: Reply)
  {
    if forall i :: 0 <= i < |store| ==> store[i].name != name then
      reply == Say("bucket not found")
    else
      && reply.Tables?
      && exists i :: (&& 0 <= i < |store| && store[i].name == name
                      && (forall j :: i < j < |store| ==> store[j].name != name)
                      && Query.Shows(Query.Collect(Query.Run(store[i].pairs, prefix)), reply.tables))
  }

  /** findData with its error printed. */
  method Ask(store: seq<Query.Bucket>, name: string, prefix: string) returns (reply: Reply)
    ensures Answers(store, name, prefix, reply)
  {
    var r := Query.FindData(store, name, prefix);
    if r.Err? {
      reply := Say(r.message);
    } else {
      reply := Tables(r.value);
    }
  }

  /** The input loop's state: the selected bucket, "" when none. */
  class Session {
    var selected: string

    constructor ()
      ensures selected == ""
    {
      selected := "";
    }

    /** Handle one line as read, newline included. */
    method Step(store: seq<Query.Bucket>, line: string) returns (reply: Reply)
      modifies this
      ensures var cmd := Parse(Clean(line));
              && (cmd.Use? ==> selected == cmd.name && reply == Nothing)
              && (!cmd.Use? ==> selected == old(selected))
              && (cmd.Blank? ==> reply == Nothing)
              && (cmd.ShowBuckets? ==> reply == ListBuckets)
              && (cmd.Key? && old(selected) == "" ==> reply == Say("Selected bucket"))
              && (cmd.Key? && old(selected) != "" ==> Answers(store, old(selected), cmd.prefix, reply))
              && (cmd.BucketKey? ==> Answers(store, cmd.name, cmd.prefix, reply))
              && (cmd.Quit? ==> reply == Exit)
              && (cmd.Unknown? ==> reply == Say("Command not found: " + line))
    {
      var cmd := Parse(Clean(line));
      match cmd
      case Blank =>
        reply := Nothing;
      case ShowBuckets =>
        reply := ListBuckets;
      case Use(name) =>
        selected := name;
        reply := Nothing;
      case Key(prefix) =>
        if selected == "" {
          reply := Say("Selected bucket");
        } else {
          reply := Ask(store, selected, prefix);
        }
      case BucketKey(name, prefix) =>
        reply := Ask(store, name, prefix);
      case Quit =>
        reply := Exit;
      case Unknown =>
        reply := Say("Command not found: " + line);
    }
  }
}
