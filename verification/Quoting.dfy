/** How a privileged command line is shown: its arguments recovered, its options skipped, and
    the rest quoted so that a shell would read the same arguments back. */
module Quoting {
  import opened Text
  import opened Wrappers

  const NUL: char := '\0'
  const QUOTE: char := '\''
  const BACKSLASH: char := '\\'

  // ---------------------------------------------------------------- how a shell reads words

  predicate Separates(c: char) {
    c == ' ' || c == '\t' || c == '\n'
  }

  /** Characters a shell may treat specially outside quotes. */
  predicate Special(c: char) {
    c in {'|', '&', ';', '<', '>', '(', ')', '$', '`', '"', '*', '?', '[', '#', '~', BACKSLASH, QUOTE}
  }

  function Prepend(word: string, words: Option<seq<string>>): Option<seq<string>> {
    if words.None? then None else Some([word] + words.value)
  }

  function Ended(word: Option<string>, words: Option<seq<string>>): Option<seq<string>> {
    if word.None? then words else Prepend(word.value, words)
  }

  function Continued(word: Option<string>, c: char): Option<string> {
    Some((if word.None? then "" else word.value) + [c])
  }

  /** Splits a line into words by the backslash and the single quote of POSIX.1-2017, Shell
      Command Language, sections 2.2.1 and 2.2.2. `word` is the word begun so far. No result
      if anything is left open or could mean something else. */
  function Words(line: string, word: Option<string>): Option<seq<string>>
    decreases |line|
  {
    if line == [] then Ended(word, Some([]))
    else if Separates(line[0]) then Ended(word, Words(line[1..], None))
    else if line[0] == BACKSLASH then
      if |line| == 1 then None
      else if line[1] == '\n' then Words(line[2..], word)
      else Words(line[2..], Continued(word, line[1]))
    else if line[0] == QUOTE then InQuotes(line[1..], if word.None? then "" else word.value)
    else if Special(line[0]) then None
    else Words(line[1..], Continued(word, line[0]))
  }

  /** The same within single quotes. */
  function InQuotes(line: string, word: string): Option<seq<string>>
    decreases |line|
  {
    if line == [] then None
    else if line[0] == QUOTE then Words(line[1..], Some(word))
    else InQuotes(line[1..], word + [line[0]])
  }

  // ---------------------------------------------------------------- quoting

  /** Letters and digits; beyond ASCII `letter` decides, but blanks and controls are neither. */
  predicate Alphanumeric(c: char, letter: char -> bool) {
    if c as int < 128 then 'a' <= c <= 'z' || 'A' <= c <= 'Z' || '0' <= c <= '9'
    else letter(c) && !Whitespace(c) && !Control(c)
  }

  predicate PlainChar(c: char, letter: char -> bool) {
    Alphanumeric(c, letter) || c in {'/', '.', '_', '-', '+', '=', ':', ',', '@', '%'}
  }

  predicate Plain(a: string, letter: char -> bool) {
    a != "" && forall i | 0 <= i < |a| :: PlainChar(a[i], letter)
  }

  /** A quote closes the quotes, stands escaped, and opens them again. */
  function Escape(c: char): string {
    if c == QUOTE then [QUOTE, BACKSLASH, QUOTE, QUOTE] else [c]
  }

  function Escaped(a: string): string {
    if a == "" then "" else Escape(a[0]) + Escaped(a[1..])
  }

  function Quoted(a: string, letter: char -> bool): string {
    if Plain(a, letter) then a else [QUOTE] + Escaped(a) + [QUOTE]
  }

  /** The words one after another, separated by spaces. */
  function Line(args: seq<string>, letter: char -> bool): string {
    if args == [] then "" else if |args| == 1 then Quoted(args[0], letter)
    else Quoted(args[0], letter) + ([' '] + Line(args[1..], letter))
  }

  /** ASCII letters and digits and the ten signs, by their codes; other characters as `letter` says. */
  ghost predicate Ordinary(c: char, letter: char -> bool) {
    var n := c as int;
    if n < 128 then 48 <= n <= 57 || 65 <= n <= 90 || 97 <= n <= 122 || n in {37, 43, 44, 45, 46, 47, 58, 61, 64, 95}
    else letter(c) && !Whitespace(c) && !Control(c)
  }

  /** An argument is shown as it is if and only if it is made of such characters, and otherwise
      between quotes, each quote in it written as four characters. */
  lemma QuotedWhen(a: string, letter: char -> bool)
    ensures if a != "" && forall i | 0 <= i < |a| :: Ordinary(a[i], letter) then Quoted(a, letter) == a
            else Quoted(a, letter) == "'" + Escaped(a) + "'"
    ensures forall b | b != "" && b[0] == '\'' :: Escaped(b) == "'\\''" + Escaped(b[1..])
    ensures forall b | b != "" && b[0] != '\'' :: Escaped(b) == [b[0]] + Escaped(b[1..])
  {
    forall c: char ensures Ordinary(c, letter) <==> PlainChar(c, letter) {
      SignCodes(c);
    }
  }

  lemma SignCodes(c: char)
    ensures c in {'/', '.', '_', '-', '+', '=', ':', ',', '@', '%'} <==>
            c as int in {37, 43, 44, 45, 46, 47, 58, 61, 64, 95}
  {
    var n := c as int;
    if n in {37, 43, 44, 45, 46, 47, 58, 61, 64, 95} { assert n as char == c; }
  }

  lemma PlainStep(c: char, rest: string, word: Option<string>, letter: char -> bool)
    requires PlainChar(c, letter)
    ensures Words([c] + rest, word) == Words(rest, Continued(word, c))
  {
    assert ([c] + rest)[1..] == rest;
  }

  lemma {:induction false} PlainRead(a: string, begun: string, rest: string, letter: char -> bool)
    requires forall i | 0 <= i < |a| :: PlainChar(a[i], letter)
    ensures Words(a + rest, Some(begun)) == Words(rest, Some(begun + a))
    decreases |a|
  {
    if a == "" {
      assert a + rest == rest && begun + a == begun;
    } else {
      assert a + rest == [a[0]] + (a[1..] + rest);
      PlainStep(a[0], a[1..] + rest, Some(begun), letter);
      assert begun + [a[0]] + a[1..] == begun + a;
      PlainRead(a[1..], begun + [a[0]], rest, letter);
    }
  }

  lemma QuoteStep(c: char, more: string, begun: string)
    ensures InQuotes([c] + more, begun) == if c == QUOTE then Words(more, Some(begun)) else InQuotes(more, begun + [c])
  {
    assert ([c] + more)[1..] == more;
  }

  /** A quote inside quotes comes back as itself. */
  lemma QuoteRead(begun: string, more: string)
    ensures InQuotes([QUOTE, BACKSLASH, QUOTE, QUOTE] + more, begun) == InQuotes(more, begun + [QUOTE])
  {
    var line := [QUOTE, BACKSLASH, QUOTE, QUOTE] + more;
    assert line[1..] == [BACKSLASH, QUOTE, QUOTE] + more;
    assert line[1..][2..] == [QUOTE] + more;
    assert ([QUOTE] + more)[1..] == more;
    assert Words(line[1..], Some(begun)) == Words([QUOTE] + more, Some(begun + [QUOTE]));
  }

  lemma EscapeRead(c: char, more: string, begun: string)
    ensures InQuotes(Escape(c) + more, begun) == InQuotes(more, begun + [c])
  {
    if c == QUOTE { QuoteRead(begun, more); } else { QuoteStep(c, more, begun); }
  }

  lemma {:induction false} EscapedRead(a: string, begun: string, rest: string)
    ensures InQuotes(Escaped(a) + ([QUOTE] + rest), begun) == Words(rest, Some(begun + a))
    decreases |a|
  {
    if a == "" {
      assert "" + ([QUOTE] + rest) == [QUOTE] + rest && begun + a == begun;
      QuoteStep(QUOTE, rest, begun);
    } else {
      var more := Escaped(a[1..]) + ([QUOTE] + rest);
      assert Escaped(a) + ([QUOTE] + rest) == Escape(a[0]) + more;
      EscapeRead(a[0], more, begun);
      assert begun + [a[0]] + a[1..] == begun + a;
      EscapedRead(a[1..], begun + [a[0]], rest);
    }
  }

  lemma PlainWordRead(a: string, rest: string, letter: char -> bool)
    requires Plain(a, letter)
    ensures Words(a + rest, None) == Words(rest, Some(a))
  {
    assert a + rest == [a[0]] + (a[1..] + rest);
    PlainStep(a[0], a[1..] + rest, None, letter);
    assert "" + [a[0]] == [a[0]] && [a[0]] + a[1..] == a;
    PlainRead(a[1..], [a[0]], rest, letter);
  }

  lemma EscapedWordRead(a: string, rest: string)
    ensures Words([QUOTE] + Escaped(a) + [QUOTE] + rest, None) == Words(rest, Some(a))
  {
    var line := [QUOTE] + Escaped(a) + [QUOTE] + rest;
    assert line[1..] == Escaped(a) + ([QUOTE] + rest);
    EscapedRead(a, "", rest);
    assert "" + a == a;
  }

  /** A quoted argument is read as one word, whatever follows. */
  lemma QuotedRead(a: string, rest: string, letter: char -> bool)
    ensures Words(Quoted(a, letter) + rest, None) == Words(rest, Some(a))
  {
    if Plain(a, letter) { PlainWordRead(a, rest, letter); } else { EscapedWordRead(a, rest); }
  }

  lemma SpaceRead(rest: string, word: string)
    ensures Words([' '] + rest, Some(word)) == Prepend(word, Words(rest, None))
  {
    assert ([' '] + rest)[1..] == rest;
  }

  lemma LastRead(a: string, letter: char -> bool)
    ensures Words(Quoted(a, letter), None) == Some([a])
  {
    assert Quoted(a, letter) + "" == Quoted(a, letter);
    QuotedRead(a, "", letter);
    assert [a] + [] == [a];
  }

  lemma FirstRead(a: string, rest: string, letter: char -> bool)
    ensures Words(Quoted(a, letter) + ([' '] + rest), None) == Prepend(a, Words(rest, None))
  {
    QuotedRead(a, [' '] + rest, letter);
    SpaceRead(rest, a);
  }

  /** Reading a quoted line gives back exactly its arguments: any number of them, empty ones
      and ones with blanks, quotes or anything else included. */
  lemma {:induction false} QuotingRoundTrip(args: seq<string>, letter: char -> bool)
    ensures Words(Line(args, letter), None) == Some(args)
    decreases |args|
  {
    if |args| == 1 {
      LastRead(args[0], letter);
      assert [args[0]] == args;
    } else if args != [] {
      FirstRead(args[0], Line(args[1..], letter), letter);
      QuotingRoundTrip(args[1..], letter);
      assert [args[0]] + args[1..] == args;
    }
  }

  /** So different argument lists are quoted differently. */
  lemma QuotingIsOneToOne(a: seq<string>, b: seq<string>, letter: char -> bool)
    requires Line(a, letter) == Line(b, letter)
    ensures a == b
  {
    QuotingRoundTrip(a, letter);
    QuotingRoundTrip(b, letter);
  }

  // ---------------------------------------------------------------- what is shown

  const MAX_SHOWN := 4096

  /** A text as it is shown: on one line, without blanks at its ends, and only if it is not
      empty then and was not too long before. */
  function Detail(value: string): Option<string> {
    if Size(value) > MAX_SHOWN then None
    else
      var r := Trim(Flat(value));
      if r == "" then None else Some(r)
  }

  /** Whatever is shown is one trimmed line within the limit; and nothing is shown exactly of
      what is too long or has nothing but blanks and controls. */
  lemma DetailIsOneLine(value: string)
    ensures var r := Detail(value);
            && (r.Some? ==> r.value != "" && Plainly(r.value) && Tight(r.value) && Size(r.value) <= MAX_SHOWN)
            && (r.None? <==> || Size(value) > MAX_SHOWN
                             || forall i | 0 <= i < |value| :: Whitespace(value[i]) || Control(value[i]))
  {
    var flat := Flat(value);
    var i, j := TrimDrops(flat);
    FlatIsPlain(value);
    FlatIsSmaller(value);
    PartIsSmaller(flat, i, j);
    TrimmedEmptyIff(flat);
    BlankWhenFlat(value);
  }

  lemma BlankWhenFlat(value: string)
    ensures Blank(Flat(value)) <==> forall i | 0 <= i < |value| :: Whitespace(value[i]) || Control(value[i])
  {
    if Blank(Flat(value)) {
      forall i | 0 <= i < |value| ensures Whitespace(value[i]) || Control(value[i]) {
        assert Whitespace(Flat(value)[i]);
      }
    }
  }

  function FlatAll(args: seq<string>): (r: seq<string>)
    ensures |r| == |args| && forall i | 0 <= i < |args| :: r[i] == Flat(args[i])
  {
    if args == [] then [] else [Flat(args[0])] + FlatAll(args[1..])
  }

  /** No argument holds a control character. */
  predicate AllPlainly(args: seq<string>) {
    forall i | 0 <= i < |args| :: Plainly(args[i])
  }

  lemma FlatAllSameIff(args: seq<string>)
    ensures FlatAll(args) == args <==> AllPlainly(args)
  {
    forall i | 0 <= i < |args| ensures Flat(args[i]) == args[i] <==> Plainly(args[i]) { FlatSameIff(args[i]); }
    if FlatAll(args) == args {
      forall i | 0 <= i < |args| ensures Plainly(args[i]) { assert FlatAll(args)[i] == args[i]; }
    }
  }

  lemma {:induction false} FlatEscaped(a: string)
    ensures Flat(Escaped(a)) == Escaped(Flat(a))
    decreases |a|
  {
    if a != "" {
      FlatAdds(Escape(a[0]), Escaped(a[1..]));
      FlatEscaped(a[1..]);
      assert Flat(a)[1..] == Flat(a[1..]);
      assert Flat(Escape(a[0])) == Escape(Flat(a)[0]);
    }
  }

  lemma PlainWhenFlat(a: string, letter: char -> bool)
    ensures Plain(Flat(a), letter) <==> Plain(a, letter)
    ensures Plain(a, letter) ==> Flat(a) == a
  {
    if Plain(a, letter) {
      FlatSameIff(a);
    } else if a != "" {
      var i :| 0 <= i < |a| && !PlainChar(a[i], letter);
      assert !PlainChar(Flat(a)[i], letter);
    }
  }

  lemma FlatQuoted(a: string, letter: char -> bool)
    ensures Flat(Quoted(a, letter)) == Quoted(Flat(a), letter)
  {
    PlainWhenFlat(a, letter);
    if !Plain(a, letter) {
      FlatEscaped(a);
      FlatAdds([QUOTE], Escaped(a));
      FlatAdds([QUOTE] + Escaped(a), [QUOTE]);
      assert Flat([QUOTE]) == [QUOTE];
    }
  }

  /** Flattening the line is the same as flattening its arguments. */
  lemma {:induction false} FlatLine(args: seq<string>, letter: char -> bool)
    ensures Flat(Line(args, letter)) == Line(FlatAll(args), letter)
    decreases |args|
  {
    if args != [] {
      FlatQuoted(args[0], letter);
      if |args| > 1 {
        var rest := Line(args[1..], letter);
        FlatLine(args[1..], letter);
        FlatAdds([' '], rest);
        FlatAdds(Quoted(args[0], letter), [' '] + rest);
        assert Flat([' ']) == [' '] && FlatAll(args)[1..] == FlatAll(args[1..]);
      }
    }
  }

  lemma QuotedIsTight(a: string, letter: char -> bool)
    ensures Quoted(a, letter) != "" && Tight(Quoted(a, letter))
  {
  }

  lemma {:induction false} LineIsTight(args: seq<string>, letter: char -> bool)
    requires args != []
    ensures Line(args, letter) != "" && Tight(Line(args, letter))
    decreases |args|
  {
    QuotedIsTight(args[0], letter);
    if |args| > 1 { LineIsTight(args[1..], letter); }
  }

  /** The command as it is shown in the dialog. */
  function Shown(args: seq<string>, letter: char -> bool): Option<string> {
    if args == [] then None else Detail(Line(args, letter))
  }

  /** There is no command, or quoted it is over the limit. */
  predicate Hidden(args: seq<string>, letter: char -> bool) {
    args == [] || Size(Line(args, letter)) > MAX_SHOWN
  }

  lemma ShownIs(args: seq<string>, letter: char -> bool)
    ensures Shown(args, letter) == if Hidden(args, letter) then None else Some(Line(FlatAll(args), letter))
  {
    if args != [] {
      FlatLine(args, letter);
      LineIsTight(FlatAll(args), letter);
      TightIsTrimmed(Line(FlatAll(args), letter));
    }
  }

  /** What is shown reads back as the arguments with every control character replaced by a
      space; so as the arguments themselves if and only if none holds a control character and
      the quoted line is within the limit. */
  lemma ShownReadsBack(args: seq<string>, letter: char -> bool)
    ensures var r := Shown(args, letter);
            && (r.None? <==> Hidden(args, letter))
            && (r.Some? ==> Words(r.value, None) == Some(FlatAll(args)))
            && (r.Some? && Words(r.value, None) == Some(args) <==> !Hidden(args, letter) && AllPlainly(args))
  {
    ShownIs(args, letter);
    QuotingRoundTrip(FlatAll(args), letter);
    FlatAllSameIff(args);
  }

  /** Two commands are shown alike exactly if both are hidden, or neither is and they differ at
      most in control characters and spaces. */
  lemma ShownAlikeIff(a: seq<string>, b: seq<string>, letter: char -> bool)
    ensures Shown(a, letter) == Shown(b, letter) <==>
            || (Hidden(a, letter) && Hidden(b, letter))
            || (!Hidden(a, letter) && !Hidden(b, letter) && FlatAll(a) == FlatAll(b))
  {
    ShownIs(a, letter);
    ShownIs(b, letter);
    if Line(FlatAll(a), letter) == Line(FlatAll(b), letter) {
      QuotingIsOneToOne(FlatAll(a), FlatAll(b), letter);
    }
  }

  /** A tab is shown as a space, so these two are shown alike. */
  lemma TabShownAsSpace(letter: char -> bool)
    ensures ["a\tb"] != ["a b"] && Shown(["a\tb"], letter) == Shown(["a b"], letter) != None
  {
    var (a, b) := (["a\tb"], ["a b"]);
    assert a[0][1] != b[0][1];
    assert Flat(a[0]) == b[0] && Flat(b[0]) == b[0];
    assert FlatAll(a) == FlatAll(b) == b;
    SizeBounds(Line(a, letter));
    SizeBounds(Line(b, letter));
    ShortLine(a[0], letter);
    ShortLine(b[0], letter);
    ShownAlikeIff(a, b, letter);
    ShownReadsBack(a, letter);
  }

  lemma ShortLine(a: string, letter: char -> bool)
    requires |a| == 3
    ensures |Line([a], letter)| <= 14
  {
    assert |Escaped(a)| <= 12 by {
      assert a[1..][1..] == [a[2]] && a[1..][1..][1..] == [];
      assert |Escaped(a[1..][1..])| <= 4;
    }
  }

  /** A command of 4097 letters is not shown at all. */
  lemma LongCommandHidden(a: string, letter: char -> bool)
    requires |a| == 4097 && forall i | 0 <= i < |a| :: a[i] == 'a'
    ensures Shown([a], letter) == None
  {
    assert Plain(a, letter);
    SizeBounds(Line([a], letter));
    ShownReadsBack([a], letter);
  }

  // ---------------------------------------------------------------- options

  predicate StartsWith(a: string, prefix: string) {
    prefix <= a
  }

  predicate Flag(a: string) {
    a == "--disable-internal-agent" || a == "--keep-cwd"
  }

  predicate TakesUser(a: string) {
    a == "--user" || a == "-u"
  }

  /** An option as it may be written. */
  datatype Opt = Simple(flag: string) | User(name: string, value: string) | UserEquals(value: string) {
    predicate Valid() {
      match this
      case Simple(flag) => flag in {"--disable-internal-agent", "--keep-cwd"}
      case User(name, _) => name in {"--user", "-u"}
      case UserEquals(_) => true
    }

    function Written(): seq<string> {
      match this
      case Simple(flag) => [flag]
      case User(name, value) => [name, value]
      case UserEquals(value) => ["--user=" + value]
    }
  }

  function Written(opts: seq<Opt>): seq<string> {
    if opts == [] then [] else opts[0].Written() + Written(opts[1..])
  }

  /** The account asked for last. */
  function LastUser(opts: seq<Opt>, user: Option<string>): Option<string> {
    if opts == [] then user
    else LastUser(opts[1..], if opts[0].Simple? then user else Some(opts[0].value))
  }

  datatype Scanned = Unknown | Command(args: seq<string>, user: Option<string>)

  /** Skips the options in front of the command. */
  function Scan(args: seq<string>, user: Option<string>): Scanned
    decreases |args|
  {
    if args == [] then Command([], user)
    else if Flag(args[0]) then Scan(args[1..], user)
    else if TakesUser(args[0]) then (if |args| == 1 then Command([], None) else Scan(args[2..], Some(args[1])))
    else if args[0] == "--" then Command(args[1..], user)
    else if StartsWith(args[0], "--user=") then Scan(args[1..], Some(args[0][7..]))
    else if StartsWith(args[0], "-") then Unknown
    else Command(args, user)
  }

  method ScanOptions(args: seq<string>) returns (r: Scanned)
    ensures r == Scan(args, None)
  {
    var i := 0;
    var user := None;
    while i < |args|
      invariant i <= |args| && Scan(args[i..], user) == Scan(args, None)
    {
      var arg := args[i];
      if Flag(arg) {
        assert args[i..][1..] == args[i + 1..];
        i := i + 1;
      } else if TakesUser(arg) {
        if i + 1 == |args| { return Command([], None); }
        assert args[i..][2..] == args[i + 2..];
        i, user := i + 2, Some(args[i + 1]);
      } else if arg == "--" {
        return Command(args[i..][1..], user);
      } else if StartsWith(arg, "--user=") {
        assert args[i..][1..] == args[i + 1..];
        i, user := i + 1, Some(arg[7..]);
      } else if StartsWith(arg, "-") {
        return Unknown;
      } else {
        return Command(args[i..], user);
      }
    }
    return Command([], user);
  }

  lemma OneOption(o: Opt, rest: seq<string>, user: Option<string>)
    requires o.Valid()
    ensures Scan(o.Written() + rest, user) == Scan(rest, if o.Simple? then user else Some(o.value))
  {
    var args := o.Written() + rest;
    match o
    case Simple(_) => assert args[1..] == rest;
    case User(_, _) => assert args[2..] == rest;
    case UserEquals(v) =>
      assert args[1..] == rest && args[0][7..] == v;
      assert args[0][2] == 'u';
  }

  /** Scanning undoes writing: whatever options are written in front of a command, in any
      number and order, the command and the account asked for last come back; a command that
      begins with a dash needs the two dashes before it. */
  lemma {:induction false} ScanUndoesWriting(opts: seq<Opt>, dashes: bool, command: seq<string>, user: Option<string>)
    requires forall i | 0 <= i < |opts| :: opts[i].Valid()
    requires dashes || command == [] || !StartsWith(command[0], "-")
    ensures Scan(Written(opts) + ((if dashes then ["--"] else []) + command), user)
            == Command(command, LastUser(opts, user))
    decreases |opts|
  {
    var tail := (if dashes then ["--"] else []) + command;
    if opts == [] {
      assert Written(opts) + tail == tail;
      if dashes { assert tail[1..] == command; } else { assert tail == command; }
    } else {
      assert Written(opts) + tail == opts[0].Written() + (Written(opts[1..]) + tail);
      OneOption(opts[0], Written(opts[1..]) + tail, user);
      ScanUndoesWriting(opts[1..], dashes, command, if opts[0].Simple? then user else Some(opts[0].value));
    }
  }

  /** The first of `tail` is no option. */
  predicate NoOption(tail: seq<string>) {
    tail != [] && !("--user=" <= tail[0])
    && tail[0] !in {"--disable-internal-agent", "--keep-cwd", "--user", "-u", "--"}
  }

  /** What the arguments after the options come to: an option without its account asks for none and
      leaves no command, two dashes end the options, and anything else with a dash is not known. */
  ghost predicate Decides(tail: seq<string>, user: Option<string>, r: Scanned) {
    || (tail == [] && r == Command([], user))
    || ((tail == ["--user"] || tail == ["-u"]) && r == Command([], None))
    || (tail != [] && tail[0] == "--" && r == Command(tail[1..], user))
    || (NoOption(tail) && "-" <= tail[0] && r == Unknown)
    || (NoOption(tail) && !("-" <= tail[0]) && r == Command(tail, user))
  }

  ghost predicate AllValid(opts: seq<Opt>) {
    forall i {:trigger opts[i]} | 0 <= i < |opts| :: opts[i].Valid()
  }

  /** The option the arguments begin with, if any. */
  function FirstOption(args: seq<string>): (r: Option<Opt>)
    requires args != []
    ensures r.Some? ==> r.value.Valid() && r.value.Written() <= args && r.value.Written() != []
    ensures r.None? ==> NoOption(args) || args[0] == "--" || args == ["--user"] || args == ["-u"]
  {
    var a := args[0];
    if a in {"--disable-internal-agent", "--keep-cwd"} then Some(Simple(a))
    else if a in {"--user", "-u"} then (if |args| == 1 then None else Some(User(a, args[1])))
    else if "--user=" <= a then assert a == "--user=" + a[7..]; Some(UserEquals(a[7..]))
    else None
  }

  lemma NoOptionDecides(args: seq<string>, user: Option<string>)
    requires args != [] && FirstOption(args).None?
    ensures Decides(args, user, Scan(args, user))
  {
  }

  lemma PutInFront(o: Opt, more: seq<Opt>, args: seq<string>, tail: seq<string>, user: Option<string>)
    requires o.Valid() && AllValid(more) && args == o.Written() + (Written(more) + tail)
    ensures AllValid([o] + more) && args == Written([o] + more) + tail
    ensures LastUser([o] + more, user) == LastUser(more, if o.Simple? then user else Some(o.value))
  {
    var opts := [o] + more;
    assert opts[1..] == more;
  }

  /** So every list of arguments is some options, perhaps none, and what decides. */
  lemma {:induction false} ScanDecides(args: seq<string>, user: Option<string>)
    returns (opts: seq<Opt>, tail: seq<string>)
    ensures AllValid(opts) && args == Written(opts) + tail && Decides(tail, LastUser(opts, user), Scan(args, user))
    decreases |args|
  {
    opts, tail := [], args;
    if args != [] {
      if FirstOption(args).None? {
        NoOptionDecides(args, user);
      } else {
        var o := FirstOption(args).value;
        var rest := args[|o.Written()|..];
        assert args == o.Written() + rest;
        OneOption(o, rest, user);
        var more;
        more, tail := ScanDecides(rest, if o.Simple? then user else Some(o.value));
        PutInFront(o, more, args, tail, user);
        opts := [o] + more;
      }
    }
  }

  // ---------------------------------------------------------------- recovering the arguments

  /** The pieces between the NULs. */
  function Pieces(cmdline: string): seq<string> {
    if cmdline == "" then [""]
    else
      var p := Pieces(cmdline[1..]);
      if cmdline[0] == NUL then [""] + p
      else if p == [] then [[cmdline[0]]] else [[cmdline[0]] + p[0]] + p[1..]
  }

  function Trimmed(args: seq<string>): seq<string> {
    if args != [] && args[|args| - 1] == "" then Trimmed(args[..|args| - 1]) else args
  }

  method TrimArguments(args: seq<string>) returns (r: seq<string>)
    ensures r == Trimmed(args)
  {
    r := args;
    while r != [] && r[|r| - 1] == ""
      invariant Trimmed(r) == Trimmed(args)
      decreases |r|
    {
      r := r[..|r| - 1];
    }
  }

  /** The arguments as the system records them, each ended by a NUL. */
  function Recorded(args: seq<string>): string {
    if args == [] then "" else args[0] + [NUL] + Recorded(args[1..])
  }

  predicate NoNul(a: string) {
    forall i | 0 <= i < |a| :: a[i] != NUL
  }

  lemma {:induction false} PieceFirst(a: string, rest: string)
    requires NoNul(a)
    ensures Pieces(a + [NUL] + rest) == [a] + Pieces(rest)
    decreases |a|
  {
    var line := a + [NUL] + rest;
    if a == "" {
      assert line[1..] == rest;
    } else {
      assert line[1..] == a[1..] + [NUL] + rest;
      PieceFirst(a[1..], rest);
      assert [a[0]] + a[1..] == a;
      assert ([a[1..]] + Pieces(rest))[1..] == Pieces(rest);
    }
  }

  lemma {:induction false} PiecesOfRecorded(args: seq<string>)
    requires forall i | 0 <= i < |args| :: NoNul(args[i])
    ensures Pieces(Recorded(args)) == args + [""]
    decreases |args|
  {
    if args != [] {
      PieceFirst(args[0], Recorded(args[1..]));
      PiecesOfRecorded(args[1..]);
      assert [args[0]] + (args[1..] + [""]) == args + [""];
    }
  }

  /** What is left does not end in an empty argument, and what is dropped are empty ones. */
  lemma {:induction false} TrimmedIsPrefix(args: seq<string>)
    ensures Trimmed(args) <= args && (Trimmed(args) != [] ==> Trimmed(args)[|Trimmed(args)| - 1] != "")
    ensures forall i | |Trimmed(args)| <= i < |args| :: args[i] == ""
    ensures Trimmed(args) == args <==> args == [] || args[|args| - 1] != ""
    decreases |args|
  {
    if args != [] && args[|args| - 1] == "" { TrimmedIsPrefix(args[..|args| - 1]); }
  }

  /** A recorded command line gives back its arguments but the empty ones at the end; so exactly
      its arguments if and only if the last is not empty. */
  lemma ArgumentsRecovered(args: seq<string>)
    requires forall i | 0 <= i < |args| :: NoNul(args[i])
    ensures var seen := Trimmed(Pieces(Recorded(args)));
            && seen <= args && (seen != [] ==> seen[|seen| - 1] != "")
            && (forall i | |seen| <= i < |args| :: args[i] == "")
            && (seen == args <==> args == [] || args[|args| - 1] != "")
  {
    PiecesOfRecorded(args);
    assert (args + [""])[..|args|] == args;
    TrimmedIsPrefix(args);
  }

  lemma TrimmedLess(args: seq<string>)
    ensures Trimmed(args + [""]) == Trimmed(args)
  {
    assert (args + [""])[..|args|] == args;
  }

  /** An empty last argument is not shown. */
  lemma EmptyLastArgumentIsLost(args: seq<string>)
    requires args != [] && args[|args| - 1] != "" && forall i | 0 <= i < |args| :: NoNul(args[i])
    ensures Trimmed(Pieces(Recorded(args + [""]))) == args != args + [""]
  {
    PiecesOfRecorded(args + [""]);
    TrimmedLess(args + [""]);
    TrimmedLess(args);
    assert |args + [""]| == |args| + 1;
  }

  /** For example, of these two arguments. */
  lemma EmptyArgumentExample()
    ensures Trimmed(Pieces(Recorded(["x"] + [""]))) == ["x"]
  {
    EmptyLastArgumentIsLost(["x"]);
  }

  // ---------------------------------------------------------------- the whole

  datatype Display = Nothing | Display(command: Option<string>, user: Option<string>)

  /** What is shown of a command line: nothing for options that are not known, and otherwise the
      account and, unless there is none or it is too long, a line that reads back as the command
      with its control characters replaced by spaces. */
  method PkexecCommand(cmdline: string, letter: char -> bool) returns (r: Display)
    ensures var args := Trimmed(Pieces(cmdline));
            match Scan(if args == [] then [] else args[1..], None)
            case Unknown => r == Nothing
            case Command(rest, user) =>
              && r.Display? && r.user == user
              && (r.command.None? <==> Hidden(rest, letter))
              && (r.command.Some? ==> Words(r.command.value, None) == Some(FlatAll(rest)))
              && (r.command.Some? && Words(r.command.value, None) == Some(rest) <==>
                  !Hidden(rest, letter) && AllPlainly(rest))
  {
    var args := TrimArguments(Pieces(cmdline));
    var scanned := ScanOptions(if args == [] then [] else args[1..]);
    match scanned
    case Unknown => return Nothing;
    case Command(rest, user) =>
      ShownReadsBack(rest, letter);
      return Display(if rest == [] then None else Detail(Line(rest, letter)), user);
  }

  /** From the recorded command line to what is shown: with a last argument that is not empty,
      the program, any options and a command come back as the command and its account. */
  lemma CommandComesBack(program: string, opts: seq<Opt>, dashes: bool, command: seq<string>)
    requires forall i | 0 <= i < |opts| :: opts[i].Valid()
    requires dashes || command == [] || !StartsWith(command[0], "-")
    requires var args := [program] + (Written(opts) + ((if dashes then ["--"] else []) + command));
             args[|args| - 1] != "" && forall i | 0 <= i < |args| :: NoNul(args[i])
    ensures var args := [program] + (Written(opts) + ((if dashes then ["--"] else []) + command));
            var seen := Trimmed(Pieces(Recorded(args)));
            seen == args && Scan(seen[1..], None) == Command(command, LastUser(opts, None))
  {
    var rest := Written(opts) + ((if dashes then ["--"] else []) + command);
    ArgumentsRecovered([program] + rest);
    assert ([program] + rest)[1..] == rest;
    ScanUndoesWriting(opts, dashes, command, None);
  }
}
