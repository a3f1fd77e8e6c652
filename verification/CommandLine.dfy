/** Command lines for child processes, and the rules by which a C program takes them apart again. */
module CommandLine {
  import opened Basics

  // ---- Quoting ----

  predicate IsSpecial(c: char) { c == ' ' || c == '\t' || c == '\n' || c as int == 0x0b || c == '\"' }

  predicate NeedsQuotes(arg: string) {
    exists i :: 0 <= i < |arg| && IsSpecial(arg[i])
  }

  function Slashes(n: nat): (s: string)
    ensures |s| == n && forall i | 0 <= i < n :: s[i] == '\\'
  {
    if n == 0 then "" else ['\\'] + Slashes(n - 1)
  }

  /** The rest of a quoted argument after `slashes` backslashes that are still to be written. */
  function Body(arg: string, slashes: nat): string {
    if arg == "" then Slashes(2 * slashes) + "\""
    else if arg[0] == '\\' then Body(arg[1..], slashes + 1)
    else if arg[0] == '\"' then Slashes(2 * slashes + 1) + "\"" + Body(arg[1..], 0)
    else Slashes(slashes) + [arg[0]] + Body(arg[1..], 0)
  }

  function Quote(arg: string): string {
    if arg == "" then "\"\"" else if NeedsQuotes(arg) then "\"" + Body(arg, 0) else arg
  }

  function Build(args: seq<string>): string {
    if args == [] then ""
    else if |args| == 1 then Quote(args[0])
    else Build(args[..|args| - 1]) + " " + Quote(args[|args| - 1])
  }

  method QuoteCommandArg(arg: string) returns (quoted: string)
    ensures quoted == Quote(arg)
  {
    if arg == "" {
      return "\"\"";
    }
    if !NeedsQuotes(arg) {
      return arg;
    }
    quoted := "\"";
    var backslashes := 0;
    var i := 0;
    assert arg[0..] == arg;
    while i < |arg|
      invariant i <= |arg| && quoted + Body(arg[i..], backslashes) == "\"" + Body(arg, 0)
    {
      var ch := arg[i];
      ghost var rest := arg[i + 1..];
      assert arg[i..] == [ch] + rest && arg[i..][1..] == rest;
      i := i + 1;
      if ch == '\\' {
        backslashes := backslashes + 1;
        continue;
      }
      if ch == '\"' {
        Regroup(quoted, Slashes(2 * backslashes + 1) + "\"", Body(rest, 0), "\"" + Body(arg, 0));
        quoted := quoted + (Slashes(2 * backslashes + 1) + "\"");
        backslashes := 0;
        continue;
      }
      Regroup(quoted, Slashes(backslashes) + [ch], Body(rest, 0), "\"" + Body(arg, 0));
      quoted := quoted + (Slashes(backslashes) + [ch]);
      backslashes := 0;
    }
    assert arg[i..] == "";
    quoted := quoted + (Slashes(2 * backslashes) + "\"");
  }

  method BuildCommandLine(args: seq<string>) returns (commandLine: string)
    ensures commandLine == Build(args)
  {
    commandLine := "";
    var i := 0;
    while i < |args|
      invariant i <= |args| && commandLine == Build(args[..i])
    {
      BuildGrows(args[..i]);
      if commandLine != "" {
        commandLine := commandLine + " ";
      }
      var quoted := QuoteCommandArg(args[i]);
      commandLine := commandLine + quoted;
      assert args[..i + 1][..i] == args[..i];
      i := i + 1;
    }
    assert args[..i] == args;
  }

  /** Only a line without arguments is empty. */
  lemma BuildGrows(args: seq<string>)
    ensures Build(args) == "" <==> args == []
  {
    if args != [] {
      QuoteStarts(args[|args| - 1]);
    }
  }

  // ---- Parsing C command-line arguments ----

  predicate IsBlank(c: char) { c == ' ' || c == '\t' }

  function Leading(s: string): (n: nat)
    ensures n <= |s| && (n < |s| ==> s[n] != '\\')
  {
    if s != "" && s[0] == '\\' then 1 + Leading(s[1..]) else 0
  }

  /**
   * One argument, from inside or outside quotes, and what follows it. Backslashes count
   * only in front of a quote, where each two stand for one and an odd one makes the
   * quote a character; two quotes inside quotes stand for one; blanks outside end it.
   */
  function Argument(s: string, quoted: bool, arg: string): (r: (string, string))
    ensures |r.1| <= |s| && (s != "" && (quoted || !IsBlank(s[0])) ==> |r.1| < |s|)
    decreases |s|
  {
    var n := Leading(s);
    if s == "" then (arg, "")
    else if n > 0 then
      if n < |s| && s[n] == '\"' then
        if n % 2 == 0 then Argument(s[n..], quoted, arg + Slashes(n / 2))
        else Argument(s[n + 1..], quoted, arg + Slashes(n / 2) + "\"")
      else Argument(s[n..], quoted, arg + Slashes(n))
    else if s[0] == '\"' then
      if quoted && |s| > 1 && s[1] == '\"' then Argument(s[2..], true, arg + "\"")
      else Argument(s[1..], !quoted, arg)
    else if !quoted && IsBlank(s[0]) then (arg, s)
    else Argument(s[1..], quoted, arg + [s[0]])
  }

  function SkipBlanks(s: string): (r: string)
    ensures |r| <= |s| && (r != "" ==> !IsBlank(r[0]))
  {
    if s != "" && IsBlank(s[0]) then SkipBlanks(s[1..]) else s
  }

  function Parse(line: string): seq<string>
    decreases |line|
  {
    var s := SkipBlanks(line);
    if s == "" then []
    else
      var (arg, rest) := Argument(s, false, "");
      [arg] + Parse(rest)
  }

  // ---- Parsing undoes quoting ----

  /** What may follow an argument: nothing, or a blank. */
  predicate Ends(t: string) { t == "" || IsBlank(t[0]) }

  lemma {:induction false} LeadingIs(k: nat, rest: string)
    requires rest == "" || rest[0] != '\\'
    ensures Leading(Slashes(k) + rest) == k
  {
    if k == 0 {
      assert Slashes(0) + rest == rest;
    } else {
      LeadingIs(k - 1, rest);
      assert (Slashes(k) + rest)[1..] == Slashes(k - 1) + rest;
    }
  }

  /** Backslashes that do not stand in front of a quote are taken as they are. */
  lemma TakeSlashes(k: nat, rest: string, quoted: bool, arg: string)
    requires rest == "" || (rest[0] != '\\' && rest[0] != '\"')
    ensures Argument(Slashes(k) + rest, quoted, arg) == Argument(rest, quoted, arg + Slashes(k))
  {
    var s := Slashes(k) + rest;
    LeadingIs(k, rest);
    if k == 0 {
      assert s == rest && arg + Slashes(0) == arg;
    } else {
      assert s[k..] == rest;
      if rest != "" {
        assert s[k] == rest[0];
      }
    }
  }

  /** Twice as many in front of a quote stand for themselves, and leave the quote its meaning. */
  lemma HalveSlashes(k: nat, rest: string, quoted: bool, arg: string)
    requires rest != "" && rest[0] == '\"'
    ensures Argument(Slashes(2 * k) + rest, quoted, arg) == Argument(rest, quoted, arg + Slashes(k))
  {
    var s := Slashes(2 * k) + rest;
    LeadingIs(2 * k, rest);
    if k == 0 {
      assert s == rest && arg + Slashes(0) == arg;
    } else {
      assert s[2 * k..] == rest && s[2 * k] == '\"';
    }
  }

  /** One more makes the quote a character. */
  lemma EscapeQuote(k: nat, rest: string, quoted: bool, arg: string)
    ensures Argument(Slashes(2 * k + 1) + "\"" + rest, quoted, arg) == Argument(rest, quoted, arg + Slashes(k) + "\"")
  {
    var s := Slashes(2 * k + 1) + "\"" + rest;
    assert s == Slashes(2 * k + 1) + ("\"" + rest);
    LeadingIs(2 * k + 1, "\"" + rest);
    assert s[2 * k + 1] == '\"' && s[2 * k + 2..] == rest;
  }

  lemma ArgumentEnds(t: string, arg: string)
    requires Ends(t)
    ensures Argument(t, false, arg) == (arg, t)
  {
  }

  lemma BodyEnds(slashes: nat, t: string, acc: string)
    requires Ends(t)
    ensures Argument(Body("", slashes) + t, true, acc) == (acc + Slashes(slashes), t)
  {
    var close := "\"" + t;
    assert Body("", slashes) + t == Slashes(2 * slashes) + close;
    HalveSlashes(slashes, close, true, acc);
    assert close[1..] == t && Leading(close) == 0;
    ArgumentEnds(t, acc + Slashes(slashes));
  }

  lemma BodyQuote(arg: string, slashes: nat, t: string, acc: string)
    requires arg != "" && arg[0] == '\"'
    ensures Argument(Body(arg, slashes) + t, true, acc) == Argument(Body(arg[1..], 0) + t, true, acc + Slashes(slashes) + "\"")
  {
    var tail := Body(arg[1..], 0) + t;
    assert Body(arg, slashes) + t == Slashes(2 * slashes + 1) + "\"" + tail;
    EscapeQuote(slashes, tail, true, acc);
  }

  lemma BodyOther(arg: string, slashes: nat, t: string, acc: string)
    requires arg != "" && arg[0] != '\\' && arg[0] != '\"'
    ensures Argument(Body(arg, slashes) + t, true, acc) == Argument(Body(arg[1..], 0) + t, true, acc + Slashes(slashes) + [arg[0]])
  {
    var tail := Body(arg[1..], 0) + t;
    var next := [arg[0]] + tail;
    assert Body(arg, slashes) + t == Slashes(slashes) + next;
    TakeSlashes(slashes, next, true, acc);
    assert next[1..] == tail && Leading(next) == 0;
  }

  /** Inside quotes, a quoted body gives back the argument and the quote that ends it. */
  lemma {:induction false} BodyParses(arg: string, slashes: nat, t: string, acc: string, out: string)
    requires Ends(t) && out == acc + Slashes(slashes) + arg
    ensures Argument(Body(arg, slashes) + t, true, acc) == (out, t)
    decreases |arg|
  {
    if arg == "" {
      BodyEnds(slashes, t, acc);
      assert out == acc + Slashes(slashes);
    } else {
      if arg[0] == '\\' {
        BodyParses(arg[1..], slashes + 1, t, acc, out);
      } else {
        BodyParses(arg[1..], 0, t, acc + Slashes(slashes) + [arg[0]], out);
        if arg[0] == '\"' {
          BodyQuote(arg, slashes, t, acc);
        } else {
          BodyOther(arg, slashes, t, acc);
        }
      }
    }
  }

  predicate Plain(arg: string) {
    forall i | 0 <= i < |arg| :: !IsSpecial(arg[i])
  }

  /** An argument without specials, backslashes and all, is taken as it is. */
  lemma {:induction false} PlainParses(arg: string, t: string, acc: string, out: string)
    requires Plain(arg) && Ends(t) && out == acc + arg
    ensures Argument(arg + t, false, acc) == (out, t)
    decreases |arg|
  {
    if arg == "" {
      assert arg + t == t && out == acc;
      ArgumentEnds(t, acc);
    } else if arg[0] == '\\' {
      var n := Leading(arg);
      SplitTail(arg, n, t);
      PlainSlashes(n, arg[n..], t, acc);
      LeadingSplit(arg);
      PlainParses(arg[n..], t, acc + Slashes(n), out);
    } else {
      PlainStep(arg, t, acc);
      PlainParses(arg[1..], t, acc + [arg[0]], out);
    }
  }

  lemma PlainStep(arg: string, t: string, acc: string)
    requires arg != "" && !IsSpecial(arg[0]) && arg[0] != '\\'
    ensures Argument(arg + t, false, acc) == Argument(arg[1..] + t, false, acc + [arg[0]])
    ensures acc + arg == acc + [arg[0]] + arg[1..]
  {
    assert (arg + t)[1..] == arg[1..] + t && Leading(arg + t) == 0;
  }

  lemma LeadingSplit(arg: string)
    ensures arg == Slashes(Leading(arg)) + arg[Leading(arg)..]
  {
    LeadingSlashes(arg);
  }

  lemma PlainSlashes(n: nat, rest: string, t: string, acc: string)
    requires Plain(rest) && Ends(t) && (rest == "" || rest[0] != '\\')
    ensures Argument(Slashes(n) + (rest + t), false, acc) == Argument(rest + t, false, acc + Slashes(n))
  {
    if rest == "" {
      assert rest + t == t;
    }
    TakeSlashes(n, rest + t, false, acc);
  }

  lemma SplitTail(arg: string, n: nat, t: string)
    requires n == Leading(arg)
    ensures arg + t == Slashes(n) + (arg[n..] + t)
  {
    LeadingSplit(arg);
  }

  lemma {:induction false} LeadingSlashes(s: string)
    ensures forall i | 0 <= i < Leading(s) :: s[i] == '\\'
  {
    if s != "" && s[0] == '\\' {
      LeadingSlashes(s[1..]);
      forall i | 0 <= i < Leading(s) ensures s[i] == '\\' {
        if i > 0 {
          assert s[i] == s[1..][i - 1];
        }
      }
    }
  }

  lemma QuoteStarts(arg: string)
    ensures Quote(arg) != "" && !IsBlank(Quote(arg)[0])
  {
  }

  /** One quoted argument, and whatever may follow it. */
  lemma QuoteParses(arg: string, t: string)
    requires Ends(t)
    ensures Argument(Quote(arg) + t, false, "") == (arg, t)
  {
    if arg == "" || NeedsQuotes(arg) {
      QuotedParses(arg, t);
    } else {
      PlainParses(arg, t, "", arg);
    }
  }

  lemma QuotedParses(arg: string, t: string)
    requires Ends(t)
    ensures Argument("\"" + Body(arg, 0) + t, false, "") == (arg, t)
  {
    var s := "\"" + Body(arg, 0) + t;
    assert s[1..] == Body(arg, 0) + t && Leading(s) == 0;
    BodyParses(arg, 0, t, "", arg);
  }

  lemma {:induction false} BuildFront(args: seq<string>)
    requires |args| > 1
    ensures Build(args) == Quote(args[0]) + " " + Build(args[1..])
  {
    if |args| > 2 {
      BuildFront(args[..|args| - 1]);
      assert args[1..][..|args| - 2] == args[..|args| - 1][1..];
    }
  }

  lemma ParseStep(arg: string, t: string)
    requires Ends(t)
    ensures Parse(Quote(arg) + t) == [arg] + Parse(t)
  {
    QuoteStarts(arg);
    QuoteParses(arg, t);
    assert SkipBlanks(Quote(arg) + t) == Quote(arg) + t;
  }

  lemma ParseBlank(line: string)
    ensures Parse(" " + line) == Parse(line)
  {
    assert (" " + line)[1..] == line;
    assert SkipBlanks(" " + line) == SkipBlanks(line);
  }

  /** Every list of arguments comes back from its command line. */
  lemma {:induction false} ParseUndoesBuild(args: seq<string>)
    ensures Parse(Build(args)) == args
  {
    if |args| == 1 {
      ParseStep(args[0], "");
      assert Quote(args[0]) + "" == Quote(args[0]);
    } else if args != [] {
      BuildFront(args);
      ParseFirst(args[0], Build(args[1..]));
      ParseUndoesBuild(args[1..]);
    }
  }

  lemma ParseFirst(arg: string, line: string)
    ensures Parse(Quote(arg) + " " + line) == [arg] + Parse(line)
  {
    assert Quote(arg) + " " + line == Quote(arg) + (" " + line);
    ParseStep(arg, " " + line);
    ParseBlank(line);
  }

  /** So no two argument lists share a command line. */
  lemma BuildIsInjective(a: seq<string>, b: seq<string>)
    requires Build(a) == Build(b)
    ensures a == b
  {
    ParseUndoesBuild(a);
    ParseUndoesBuild(b);
  }
}
