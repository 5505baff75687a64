/** The shell's parser: strtok, the pipeline splitter, the argument splitter and the search
    for redirections. */
module CommandParser {
  import opened Basics
  import opened Tokenizing

  const MAX_ARGS := 64
  const BLANKS := " \n"

  /** The argument vector of one command: its words, at most 63 of them. */
  function Argv(command: string): (words: seq<string>)
    ensures |words| < MAX_ARGS
  {
    var all := Tokens(command, BLANKS);
    if |all| < MAX_ARGS then all else all[..MAX_ARGS - 1]
  }

  /** strtok with its saved position. */
  class Tokenizer {
    const input: string
    const delims: string
    var pos: nat

    ghost predicate Valid()
      reads this
    {
      pos <= |input|
    }

    /** The tokens still to come. */
    ghost function Left(): seq<string>
      requires Valid()
      reads this
    {
      TokensFrom(input, pos, delims)
    }

    constructor (input: string, delims: string)
      ensures Valid() && Left() == Tokens(input, delims)
    {
      this.input, this.delims, pos := input, delims, 0;
    }

    /** Skips delimiters, then takes everything up to the next one, which is consumed. */
    method Next() returns (token: Option<string>)
      requires Valid()
      modifies this
      ensures Valid()
      ensures if old(Left()) == [] then token == None && Left() == []
              else token == Some(old(Left())[0]) && Left() == old(Left())[1..]
    {
      var p := pos;
      while p < |input| && input[p] in delims
        invariant pos <= p <= |input|
        invariant Skip(input, p, delims) == Skip(input, pos, delims)
      {
        p := p + 1;
      }
      if p == |input| {
        pos := p;
        return None;
      }
      var start := p;
      while p < |input| && input[p] !in delims
        invariant start <= p <= |input|
        invariant EndOf(input, p, delims) == EndOf(input, start, delims)
      {
        p := p + 1;
      }
      token := Some(input[start..p]);
      pos := if p < |input| then p + 1 else p;
    }
  }

  // ---------- the two splitters ----------

  /** What a walk through `all` has taken out and still has to come, i tokens in. */
  ghost predicate Reached(all: seq<string>, i: nat, token: Option<string>, left: seq<string>) {
    i <= |all| && (if i < |all| then token == Some(all[i]) && left == all[i + 1..] else token == None && left == [])
  }

  /** Fills `args` with the words of one command and a terminating NULL; words that do not
      fit are dropped. */
  method ParseInput(input: string, args: array<Option<string>>)
    requires args.Length == MAX_ARGS
    modifies args
    ensures var words := Argv(input);
            && (forall k :: 0 <= k < |words| ==> args[k] == Some(words[k]))
            && args[|words|] == None
  {
    var tok := new Tokenizer(input, BLANKS);
    ghost var words := tok.Left();
    var i := 0;
    var token := tok.Next();
    args[i] := token;
    while args[i].Some? && i < MAX_ARGS - 1
      invariant 0 <= i < MAX_ARGS && tok.Valid()
      invariant forall k :: 0 <= k < i ==> k < |words| && args[k] == Some(words[k])
      invariant Reached(words, i, args[i], tok.Left())
      modifies args, tok
    {
      i := i + 1;
      token := tok.Next();
      args[i] := token;
    }
    args[i] := None;
  }

  /** The array of commands, which doubles when it is full. */
  class CommandArray {
    var slots: array<string>
    var used: nat

    ghost predicate Valid()
      reads this
    {
      used <= slots.Length && slots.Length >= 4
    }

    ghost function Contents(): seq<string>
      requires Valid()
      reads this, slots
    {
      slots[..used]
    }

    constructor ()
      ensures Valid() && Contents() == [] && fresh(slots)
    {
      slots, used := new string[4](_ => ""), 0;
    }

    method Grow()
      requires Valid()
      modifies this
      ensures Valid() && fresh(slots) && slots.Length == 2 * old(slots.Length) && used == old(used)
      ensures Contents() == old(Contents())
    {
      var bigger := new string[2 * slots.Length](_ => "");
      var k := 0;
      while k < used
        invariant 0 <= k <= used && bigger[..k] == slots[..k]
        modifies bigger
      {
        bigger[k] := slots[k];
        k := k + 1;
      }
      slots := bigger;
    }

    method Append(command: string)
      requires Valid()
      modifies this, slots
      ensures Valid() && (slots == old(slots) || fresh(slots))
      ensures Contents() == old(Contents()) + [command]
    {
      if used >= slots.Length {
        Grow();
      }
      slots[used] := command;
      used := used + 1;
    }
  }

  /** Splits a line at the bars. */
  method ParsePipeline(input: string) returns (commands: CommandArray)
    ensures commands.Valid() && commands.Contents() == Tokens(input, "|")
  {
    commands := CollectTokens(input, "|");
  }

  method CollectTokens(input: string, delims: string) returns (commands: CommandArray)
    ensures commands.Valid() && commands.Contents() == Tokens(input, delims)
  {
    commands := new CommandArray();
    var tok := new Tokenizer(input, delims);
    ghost var all := tok.Left();
    var token := tok.Next();
    ghost var coming := tok.Left();
    assert all == [] + Ahead(token, coming);
    while token.Some?
      invariant tok.Valid() && fresh(tok) && commands.Valid() && fresh(commands) && fresh(commands.slots)
      invariant coming == tok.Left() && (token.None? ==> coming == [])
      invariant all == commands.Contents() + Ahead(token, coming)
      decreases |Ahead(token, coming)|
    {
      Reassociate(commands.Contents(), token.value, coming);
      token, coming := KeepAndGoOn(commands, tok, token.value);
    }
    assert commands.Contents() + [] == commands.Contents();
  }

  lemma Reassociate(a: seq<string>, x: string, b: seq<string>)
    ensures a + ([x] + b) == (a + [x]) + b
  {
  }

  /** One turn of the loop: store the token in hand and fetch the next. */
  method KeepAndGoOn(commands: CommandArray, tok: Tokenizer, token: string)
    returns (next: Option<string>, ghost coming: seq<string>)
    requires commands.Valid() && tok.Valid()
    modifies commands, commands.slots, tok
    ensures commands.Valid() && tok.Valid() && (commands.slots == old(commands.slots) || fresh(commands.slots))
    ensures commands.Contents() == old(commands.Contents()) + [token]
    ensures coming == tok.Left() && old(tok.Left()) == Ahead(next, coming) && (next.None? ==> coming == [])
  {
    commands.Append(token);
    next := tok.Next();
    coming := tok.Left();
  }

  /** The token in hand and those still to come. */
  ghost function Ahead(token: Option<string>, coming: seq<string>): seq<string> {
    if token.Some? then [token.value] + coming else []
  }

  /** The words of a command are not empty and have neither blanks nor line ends in them; there are
      at most 63, and only what comes after is dropped. */
  lemma WordsAreClean(command: string)
    ensures |Argv(command)| <= 63 && Argv(command) <= Tokens(command, " \n")
    ensures |Argv(command)| < 63 ==> Argv(command) == Tokens(command, " \n")
    ensures forall k :: 0 <= k < |Argv(command)| ==> CleanWord(Argv(command)[k])
  {
    TokensAreSolid(command, 0, BLANKS);
    forall k | 0 <= k < |Argv(command)| ensures CleanWord(Argv(command)[k]) {
      BlankInside(Tokens(command, BLANKS)[k]);
    }
  }

  predicate CleanWord(w: string) {
    w != [] && ' ' !in w && '\n' !in w
  }

  lemma BlankInside(w: string)
    requires Solid(w, BLANKS)
    ensures CleanWord(w)
  {
    assert BLANKS[0] == ' ' && BLANKS[1] == '\n';
  }

  // ---------- parsing undoes printing ----------

  /** A whole line: its stages, each with its argument vector. */
  function Parsed(line: string): seq<seq<string>> {
    ParsedStages(Tokens(line, "|"))
  }

  function ParsedStages(commands: seq<string>): seq<seq<string>> {
    if commands == [] then [] else [Argv(commands[0])] + ParsedStages(commands[1..])
  }

  function PrintStage(words: seq<string>): string {
    if words == [] then ""
    else if |words| == 1 then words[0] else words[0] + (" " + PrintStage(words[1..]))
  }

  function PrintLine(stages: seq<seq<string>>): string {
    if stages == [] then ""
    else if |stages| == 1 then PrintStage(stages[0])
    else PrintStage(stages[0]) + (" | " + PrintLine(stages[1..]))
  }

  /** A word: not empty, and without blanks, line ends and bars. */
  ghost predicate IsWord(w: string) {
    w != [] && ' ' !in w && '\n' !in w && '|' !in w
  }

  ghost predicate IsStage(words: seq<string>) {
    1 <= |words| <= 63 && forall k :: 0 <= k < |words| ==> IsWord(words[k])
  }

  lemma {:induction false} StageTokens(words: seq<string>, pad: string)
    requires words != [] && (forall k :: 0 <= k < |words| ==> IsWord(words[k])) && (pad == "" || pad == " ")
    ensures Tokens(PrintStage(words) + pad, BLANKS) == words
  {
    var w := words[0];
    assert IsWord(w);
    assert Solid(w, BLANKS);
    if |words| == 1 {
      SolidFirst(w, pad, BLANKS);
      PadHasNoTokens(pad);
    } else {
      var rest := PrintStage(words[1..]) + pad;
      StageTokens(words[1..], pad);
      assert PrintStage(words) + pad == w + (" " + rest);
      SolidFirst(w, " " + rest, BLANKS);
      LeadingBlank(rest);
      assert words == [w] + words[1..];
    }
  }

  lemma LeadingBlank(s: string)
    ensures Tokens(" " + s, BLANKS) == Tokens(s, BLANKS)
  {
    DelimiterSkipped(" " + s, BLANKS);
    assert (" " + s)[1..] == s;
  }

  lemma PadHasNoTokens(pad: string)
    requires pad == "" || pad == " "
    ensures Tokens(pad, BLANKS) == []
  {
    if pad == " " {
      LeadingBlank("");
      assert " " + "" == " ";
    }
  }

  lemma {:induction false} StageHasNoBar(words: seq<string>)
    requires words != [] && forall k :: 0 <= k < |words| ==> IsWord(words[k])
    ensures PrintStage(words) != [] && '|' !in PrintStage(words)
  {
    assert IsWord(words[0]);
    if |words| > 1 {
      StageHasNoBar(words[1..]);
    }
  }

  /** One stage between two bars, with or without a blank on either side. */
  lemma StageAlone(words: seq<string>, lead: string, pad: string)
    requires IsStage(words) && (lead == "" || lead == " ") && (pad == "" || pad == " ")
    ensures Argv(lead + PrintStage(words) + pad) == words
    ensures Solid(lead + PrintStage(words) + pad, "|")
  {
    var text := PrintStage(words) + pad;
    assert lead + PrintStage(words) + pad == lead + text;
    StageTokens(words, pad);
    LeadHasNoTokens(lead, text);
    StageHasNoBar(words);
    NoBarAround(lead, PrintStage(words), pad);
  }

  lemma LeadHasNoTokens(lead: string, s: string)
    requires lead == "" || lead == " "
    ensures Tokens(lead + s, BLANKS) == Tokens(s, BLANKS)
  {
    if lead == " " {
      LeadingBlank(s);
    } else {
      assert lead + s == s;
    }
  }

  lemma NoBarAround(lead: string, text: string, pad: string)
    requires '|' !in lead && '|' !in text && '|' !in pad && text != []
    ensures Solid(lead + text + pad, "|")
  {
    var all := lead + text + pad;
    forall i | 0 <= i < |all| ensures all[i] !in "|" {
      assert all[i] in lead || all[i] in text || all[i] in pad;
    }
  }

  lemma LastStageParsed(w: string)
    requires Solid(w, "|")
    ensures Parsed(w) == [Argv(w)]
  {
    assert w + "" == w;
    SolidFirst(w, "", "|");
    NoTokens("|");
    var all := Tokens(w, "|");
    assert all == [w] && all[1..] == [];
    assert ParsedStages(all) == [Argv(w)] + ParsedStages(all[1..]);
  }

  lemma FirstStageParsed(w: string, rest: string)
    requires Solid(w, "|")
    ensures Parsed(w + ("|" + rest)) == [Argv(w)] + Parsed(rest)
  {
    SolidFirst(w, "|" + rest, "|");
    DelimiterSkipped("|" + rest, "|");
    assert ("|" + rest)[1..] == rest;
    var all := Tokens(w + ("|" + rest), "|");
    assert all[0] == w && all[1..] == Tokens(rest, "|");
  }

  lemma LineSplits(stages: seq<seq<string>>, lead: string)
    requires |stages| > 1
    ensures lead + PrintLine(stages) ==
            (lead + PrintStage(stages[0]) + " ") + ("|" + (" " + PrintLine(stages[1..])))
  {
    assert " | " == " " + "|" + " ";
    Regrouped(lead, PrintStage(stages[0]), " ", "|", " ", PrintLine(stages[1..]));
  }

  lemma Regrouped(a: string, b: string, c: string, d: string, e: string, f: string)
    ensures a + (b + ((c + d + e) + f)) == (a + b + c) + (d + (e + f))
  {
  }

  /** Printing stages and parsing the line gives the stages back. */
  lemma {:induction false} ParseUndoesPrint(stages: seq<seq<string>>, lead: string)
    requires stages != [] && (forall k :: 0 <= k < |stages| ==> IsStage(stages[k])) && (lead == "" || lead == " ")
    ensures Parsed(lead + PrintLine(stages)) == stages
  {
    var first := stages[0];
    assert IsStage(first);
    if |stages| == 1 {
      StageAlone(first, lead, "");
      var w := lead + PrintStage(first);
      assert w + "" == w;
      LastStageParsed(w);
      assert stages == [first];
    } else {
      LineSplits(stages, lead);
      ParseUndoesPrint(stages[1..], " ");
      StageAlone(first, lead, " ");
      FirstStageParsed(lead + PrintStage(first) + " ", " " + PrintLine(stages[1..]));
      assert stages == [first] + stages[1..];
    }
  }

  // ---------- redirection ----------

  datatype Kind = Plain | Input | Output | Append

  function KindOf(w: string): Kind {
    if w == "<" then Input else if w == ">" then Output else if w == ">>" then Append else Plain
  }

  function Kinds(words: seq<string>): (ks: seq<Kind>)
    ensures |ks| == |words| && forall k :: 0 <= k < |words| ==> ks[k] == KindOf(words[k])
  {
    seq(|words|, k requires 0 <= k < |words| => KindOf(words[k]))
  }

  predicate IsOutput(k: Kind) {
    k == Output || k == Append
  }

  /** The word after position k, if there is one. */
  function WordAfter(words: seq<string>, k: nat): Option<string>
    requires k < |words|
  {
    if k + 1 < |words| then Some(words[k + 1]) else None
  }

  ghost predicate IsLastInput(ks: seq<Kind>, k: nat) {
    k < |ks| && ks[k] == Input && forall j :: k < j < |ks| ==> ks[j] != Input
  }

  ghost predicate IsLastOutput(ks: seq<Kind>, k: nat) {
    k < |ks| && IsOutput(ks[k]) && forall j :: k < j < |ks| ==> !IsOutput(ks[j])
  }

  datatype Redirection = Redirection(infile: Option<string>, outfile: Option<string>, append: bool)

  /** The last operator of each kind decides; without one, the default stands. */
  ghost predicate LastOneDecides(ks: seq<Kind>, words: seq<string>, r: Redirection)
    requires |ks| <= |words|
  {
    && ((forall j :: 0 <= j < |ks| ==> ks[j] != Input) ==> r.infile == None)
    && (forall k: nat :: IsLastInput(ks, k) ==> r.infile == WordAfter(words, k))
    && ((forall j :: 0 <= j < |ks| ==> !IsOutput(ks[j])) ==> r.outfile == None && !r.append)
    && (forall k: nat :: IsLastOutput(ks, k) ==> r.outfile == WordAfter(words, k) && r.append == (ks[k] == Append))
  }

  /** What the scan has found after the words of these kinds. */
  function Scanned(ks: seq<Kind>, words: seq<string>): Redirection
    requires |ks| <= |words|
  {
    if ks == [] then Redirection(None, None, false)
    else
      var n := |ks| - 1;
      var r := Scanned(ks[..n], words);
      match ks[n]
      case Plain => r
      case Input => r.(infile := WordAfter(words, n))
      case Output => r.(outfile := WordAfter(words, n), append := false)
      case Append => r.(outfile := WordAfter(words, n), append := true)
  }

  /** The files that a command names, and how. */
  function RedirectionOf(command: string): Redirection {
    Scanned(Kinds(Argv(command)), Argv(command))
  }

  lemma LastMoves(ks: seq<Kind>, k: nat)
    requires ks != []
    ensures var n := |ks| - 1;
            && (IsLastInput(ks, k) <==> if ks[n] == Input then k == n else IsLastInput(ks[..n], k))
            && (IsLastOutput(ks, k) <==> if IsOutput(ks[n]) then k == n else IsLastOutput(ks[..n], k))
  {
    var n := |ks| - 1;
    assert forall j :: 0 <= j < n ==> ks[..n][j] == ks[j];
  }

  lemma {:induction false} ScanFindsTheLast(ks: seq<Kind>, words: seq<string>)
    requires |ks| <= |words|
    ensures LastOneDecides(ks, words, Scanned(ks, words))
  {
    if ks != [] {
      var n := |ks| - 1;
      ScanFindsTheLast(ks[..n], words);
      assert forall j :: 0 <= j < n ==> ks[..n][j] == ks[j];
      forall k: nat
        ensures IsLastInput(ks, k) <==> if ks[n] == Input then k == n else IsLastInput(ks[..n], k)
        ensures IsLastOutput(ks, k) <==> if IsOutput(ks[n]) then k == n else IsLastOutput(ks[..n], k)
      {
        LastMoves(ks, k);
      }
    }
  }

  /** The scan, one word further. */
  lemma ScanOneMore(words: seq<string>, i: nat)
    requires i < |words|
    ensures var r := Scanned(Kinds(words)[..i], words);
            Scanned(Kinds(words)[..i + 1], words) ==
            match KindOf(words[i])
            case Plain => r
            case Input => r.(infile := WordAfter(words, i))
            case Output => r.(outfile := WordAfter(words, i), append := false)
            case Append => r.(outfile := WordAfter(words, i), append := true)
  {
    var ks := Kinds(words);
    assert ks[..i + 1][..i] == ks[..i];
  }

  /** One word of the scan. */
  method TakeOperator(r: Redirection, w: string, following: Option<string>) returns (r': Redirection, isOperator: bool)
    ensures r' == match KindOf(w)
                  case Plain => r
                  case Input => r.(infile := following)
                  case Output => r.(outfile := following, append := false)
                  case Append => r.(outfile := following, append := true)
    ensures isOperator <==> KindOf(w) != Plain
  {
    r', isOperator := r, true;
    if w == "<" {
      r' := r.(infile := following);
    } else if w == ">" {
      r' := r.(outfile := following, append := false);
    } else if w == ">>" {
      r' := r.(outfile := following, append := true);
    } else {
      isOperator := false;
    }
  }

  /** Finds the redirections of a NULL-terminated argument vector and cuts the vector at the
      first of them. */
  method ParseRedirection(args: array<Option<string>>, ghost words: seq<string>) returns (r: Redirection)
    requires args.Length == MAX_ARGS && |words| < MAX_ARGS
    requires forall k :: 0 <= k < |words| ==> args[k] == Some(words[k])
    requires args[|words|] == None
    modifies args
    ensures r == Scanned(Kinds(words), words) && LastOneDecides(Kinds(words), words, r)
    ensures forall k :: 0 <= k < |words| ==> args[k] == if KindOf(words[k]) == Plain then Some(words[k]) else None
    ensures args[|words|] == None
  {
    r := Redirection(None, None, false);
    ghost var ks := Kinds(words);
    var i := 0;
    while args[i].Some?
      invariant 0 <= i <= |words|
      invariant forall k :: 0 <= k < i ==> args[k] == if ks[k] == Plain then Some(words[k]) else None
      invariant forall k :: i <= k < |words| ==> args[k] == Some(words[k])
      invariant args[|words|] == None
      invariant r == Scanned(ks[..i], words)
      decreases |words| - i
    {
      ScanOneMore(words, i);
      var isOperator;
      r, isOperator := TakeOperator(r, args[i].value, args[i + 1]);
      if isOperator {
        args[i] := None;
      }
      i := i + 1;
    }
    assert ks[..i] == ks;
    ScanFindsTheLast(ks, words);
  }

  /** The vector that execvp sees: up to the first NULL. */
  function UpToNull(args: seq<Option<string>>): seq<string> {
    if args == [] || args[0].None? then [] else [args[0].value] + UpToNull(args[1..])
  }

  /** The words before the first operator. */
  function BeforeOperators(words: seq<string>): seq<string> {
    if words == [] || KindOf(words[0]) != Plain then [] else [words[0]] + BeforeOperators(words[1..])
  }

  /** After the cut, the command sees exactly the words before the first operator. */
  lemma {:induction false} CutAtFirstOperator(args: seq<Option<string>>, words: seq<string>)
    requires |words| < |args| && args[|words|] == None
    requires forall k :: 0 <= k < |words| ==> args[k] == if KindOf(words[k]) == Plain then Some(words[k]) else None
    ensures UpToNull(args) == BeforeOperators(words)
  {
    if words != [] && KindOf(words[0]) == Plain {
      assert forall k :: 0 <= k < |words[1..]| ==> args[1..][k] == args[k + 1] && words[1..][k] == words[k + 1];
      CutAtFirstOperator(args[1..], words[1..]);
    }
  }

  // ---------- what the operators mean ----------

  predicate IsOperator(w: string) {
    w == "<" || w == ">" || w == ">>"
  }

  lemma OperatorKinds(w: string)
    ensures KindOf(w) == Input <==> w == "<"
    ensures KindOf(w) == Output <==> w == ">"
    ensures KindOf(w) == Append <==> w == ">>"
    ensures KindOf(w) == Plain <==> !IsOperator(w)
  {
  }

  /** The last "<" names the input file; the last ">" or ">>" names the output file, and ">>" means
      that it is appended to. */
  lemma OperatorsDecide(words: seq<string>, k: nat)
    requires k < |words|
    ensures var r := Scanned(Kinds(words), words); var file := if k + 1 < |words| then Some(words[k + 1]) else None;
            && (words[k] == "<" && (forall j :: k < j < |words| ==> words[j] != "<") ==> r.infile == file)
            && (words[k] == ">" && (forall j :: k < j < |words| ==> words[j] != ">" && words[j] != ">>") ==>
                  r.outfile == file && !r.append)
            && (words[k] == ">>" && (forall j :: k < j < |words| ==> words[j] != ">" && words[j] != ">>") ==>
                  r.outfile == file && r.append)
  {
    var ks := Kinds(words);
    ScanFindsTheLast(ks, words);
    forall j | 0 <= j < |words|
      ensures ks[j] == Input <==> words[j] == "<"
      ensures ks[j] == Output <==> words[j] == ">"
      ensures ks[j] == Append <==> words[j] == ">>"
    {
      OperatorKinds(words[j]);
    }
    assert IsLastInput(ks, k) <==> words[k] == "<" && forall j :: k < j < |words| ==> words[j] != "<";
    assert IsLastOutput(ks, k) <==>
      (words[k] == ">" || words[k] == ">>") && forall j :: k < j < |words| ==> words[j] != ">" && words[j] != ">>";
  }

  lemma NoOperatorNoFile(words: seq<string>)
    ensures var r := Scanned(Kinds(words), words);
            && ("<" !in words ==> r.infile == None)
            && (">" !in words && ">>" !in words ==> r.outfile == None && !r.append)
  {
    var ks := Kinds(words);
    ScanFindsTheLast(ks, words);
    forall j | 0 <= j < |words|
      ensures ks[j] == Input ==> "<" in words
      ensures IsOutput(ks[j]) ==> ">" in words || ">>" in words
    {
      OperatorKinds(words[j]);
    }
  }

  /** Without operators there are no files; the command is what stands before the first one. */
  lemma {:induction false} PlainWords(words: seq<string>, rest: seq<string>)
    requires forall w :: w in words ==> !IsOperator(w)
    requires rest == [] || IsOperator(rest[0])
    ensures BeforeOperators(words + rest) == words
    ensures Scanned(Kinds(words), words) == Redirection(None, None, false)
  {
    forall j | 0 <= j < |words| ensures KindOf(words[j]) == Plain {
      OperatorKinds(words[j]);
    }
    ScanFindsTheLast(Kinds(words), words);
    if rest != [] {
      OperatorKinds(rest[0]);
    }
    if words == [] {
      assert words + rest == rest;
    } else {
      assert (words + rest)[1..] == words[1..] + rest;
      PlainWords(words[1..], rest);
    }
  }

  /** `sort < in > out`: words, input from a file, output to a file. */
  lemma BothRedirected(ws: seq<string>, i: string, o: string, op: string)
    requires (forall w :: w in ws ==> !IsOperator(w)) && !IsOperator(i) && !IsOperator(o)
    requires op == ">" || op == ">>"
    ensures var all := ws + ["<", i, op, o];
            && Scanned(Kinds(all), all) == Redirection(Some(i), Some(o), op == ">>")
            && BeforeOperators(all) == ws
  {
    var n, all := |ws|, ws + ["<", i, op, o];
    assert all[n] == "<" && all[n + 1] == i && all[n + 2] == op && all[n + 3] == o;
    OperatorsDecide(all, n);
    OperatorsDecide(all, n + 2);
    PlainWords(ws, ["<", i, op, o]);
  }

  /** What becomes of one command: its vector and its files. */
  method PrepareCommand(command: string) returns (argv: seq<string>, r: Redirection)
    ensures argv == BeforeOperators(Argv(command))
    ensures r == RedirectionOf(command) && LastOneDecides(Kinds(Argv(command)), Argv(command), r)
  {
    var args := new Option<string>[MAX_ARGS](_ => None);
    ParseInput(command, args);
    r := ParseRedirection(args, Argv(command));
    CutAtFirstOperator(args[..], Argv(command));
    argv := UpToNull(args[..]);
  }
}
