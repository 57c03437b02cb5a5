/** The command trees of the shell (struct command in project1/command-internals.h)
    and the two lists of files that time travel records for each of them. */
module ShellCommand {

  datatype Option<+T> = None | Some(value: T)

  datatype Operator = Sequence | And | Or | Pipe

  /** Compound commands never carry redirections: make_compound_command clears both. */
  datatype Command =
    | Simple(words: seq<string>, input: Option<string>, output: Option<string>)
    | Subshell(body: Command, input: Option<string>, output: Option<string>)
    | Compound(op: Operator, left: Command, right: Command)

  function Listed(file: Option<string>): seq<string> {
    if file.Some? then [file.value] else []
  }

  /** A word that starts with '-' is taken for an option; every other word for a file. */
  predicate NamesFile(word: string) {
    word == "" || word[0] != '-'
  }

  function FileWords(words: seq<string>): seq<string> {
    if words == [] then []
    else (if NamesFile(words[0]) then [words[0]] else []) + FileWords(words[1..])
  }

  /** The arguments of a simple command: every word but the first. */
  function Arguments(words: seq<string>): seq<string> {
    if words == [] then [] else words[1..]
  }

  /** The read list of a command; the inside of a subshell is not visited. */
  function Reads(c: Command): seq<string> {
    match c
    case Simple(words, input, _) => Listed(input) + FileWords(Arguments(words))
    case Subshell(_, input, _) => Listed(input)
    case Compound(_, left, right) => Reads(left) + Reads(right)
  }

  function Writes(c: Command): seq<string> {
    match c
    case Simple(_, _, output) => Listed(output)
    case Subshell(_, _, output) => Listed(output)
    case Compound(_, left, right) => Writes(left) + Writes(right)
  }

  /** The part of a command at a position, given by the way to it through the operators: true stands for
      the right side. The inside of a subshell has no positions. */
  function PartAt(c: Command, way: seq<bool>): Option<Command> {
    Below(c, way)
  }

  function Below(c: Command, way: seq<bool>): Option<Command> {
    if way == [] then Some(c)
    else if c.Compound? then Below(if way[0] then c.right else c.left, way[1..])
    else None
  }

  lemma PartBelow(c: Command, right: bool, way: seq<bool>)
    requires c.Compound?
    ensures PartAt(c, [right] + way) == PartAt(if right then c.right else c.left, way)
  {
    assert ([right] + way)[1..] == way;
  }

  lemma ArgumentsMembers(words: seq<string>, f: string)
    ensures f in FileWords(Arguments(words)) <==> exists i :: 1 <= i < |words| && words[i] == f && (words[i] == "" || words[i][0] != '-')
  {
    FileWordsMembers(Arguments(words), f);
    if f in Arguments(words) {
      var k :| 0 <= k < |Arguments(words)| && Arguments(words)[k] == f;
      assert words[k + 1] == f;
    }
    if i :| 1 <= i < |words| && words[i] == f {
      assert Arguments(words)[i - 1] == f;
    }
  }

  ghost predicate Uses(part: Command, f: string, writes: bool) {
    !part.Compound? &&
    if writes then part.output == Some(f)
    else part.input == Some(f) || (part.Simple? && exists i :: 1 <= i < |part.words| && part.words[i] == f && (part.words[i] == "" || part.words[i][0] != '-'))
  }

  ghost predicate UsedIn(c: Command, f: string, writes: bool) {
    exists way :: PartAt(c, way).Some? && Uses(PartAt(c, way).value, f, writes)
  }

  lemma NotItself(c: Command, f: string, writes: bool)
    requires c.Compound?
    ensures !Uses(c, f, writes)
  {
  }

  lemma UsedBelow(c: Command, f: string, writes: bool)
    requires c.Compound?
    ensures UsedIn(c, f, writes) <==> UsedIn(c.left, f, writes) || UsedIn(c.right, f, writes)
  {
    hide Uses;
    if UsedIn(c.left, f, writes) {
      var way :| PartAt(c.left, way).Some? && Uses(PartAt(c.left, way).value, f, writes);
      PartBelow(c, false, way);
    }
    if UsedIn(c.right, f, writes) {
      var way :| PartAt(c.right, way).Some? && Uses(PartAt(c.right, way).value, f, writes);
      PartBelow(c, true, way);
    }
    if way :| PartAt(c, way).Some? && Uses(PartAt(c, way).value, f, writes) {
      NotItself(c, f, writes);
      assert way != [] && PartAt(if way[0] then c.right else c.left, way[1..]) == PartAt(c, way);
    }
  }

  lemma UsedAlone(c: Command, f: string, writes: bool)
    requires !c.Compound?
    ensures UsedIn(c, f, writes) <==> Uses(c, f, writes)
  {
    assert PartAt(c, []) == Some(c);
  }

  lemma {:induction false} ListsUses(c: Command, f: string)
    ensures f in Reads(c) <==> UsedIn(c, f, false)
    ensures f in Writes(c) <==> UsedIn(c, f, true)
    decreases c
  {
    hide UsedIn;
    if c.Compound? {
      ListsUses(c.left, f);
      ListsUses(c.right, f);
      UsedBelow(c, f, false);
      UsedBelow(c, f, true);
    } else {
      UsedAlone(c, f, false);
      UsedAlone(c, f, true);
      if c.Simple? {
        ArgumentsMembers(c.words, f);
      }
    }
  }

  lemma ArgumentsListed(words: seq<string>)
    ensures forall f :: f in FileWords(Arguments(words)) <==> exists i :: 1 <= i < |words| && words[i] == f && (words[i] == "" || words[i][0] != '-')
  {
    hide FileWords, Arguments;
    forall f
      ensures f in FileWords(Arguments(words)) <==> exists i :: 1 <= i < |words| && words[i] == f && (words[i] == "" || words[i][0] != '-')
    {
      ArgumentsMembers(words, f);
    }
  }

  /** Which files are read: the inputs of redirections, and the words of simple commands from the second on
      that do not begin with a dash, wherever they are outside subshells. */
  lemma ReadsExact(c: Command, f: string)
    ensures f in Reads(c) <==>
              exists way :: PartAt(c, way).Some? &&
                match PartAt(c, way).value
                case Simple(words, input, _) => input == Some(f) || exists i :: 1 <= i < |words| && words[i] == f && (words[i] == "" || words[i][0] != '-')
                case Subshell(_, input, _) => input == Some(f)
                case Compound(_, _, _) => false
  {
    ListsUses(c, f);
    hide Reads;
  }

  /** Which files are written: the outputs of redirections outside subshells. */
  lemma WritesExact(c: Command, f: string)
    ensures f in Writes(c) <==> exists way :: PartAt(c, way).Some? && !PartAt(c, way).value.Compound? && PartAt(c, way).value.output == Some(f)
  {
    ListsUses(c, f);
    hide Writes;
  }

  lemma ListedExactly(c: Command)
    ensures forall f :: f in Reads(c) <==>
              exists way :: PartAt(c, way).Some? &&
                match PartAt(c, way).value
                case Simple(words, input, _) => input == Some(f) || exists i :: 1 <= i < |words| && words[i] == f && (words[i] == "" || words[i][0] != '-')
                case Subshell(_, input, _) => input == Some(f)
                case Compound(_, _, _) => false
    ensures forall f :: f in Writes(c) <==> exists way :: PartAt(c, way).Some? && !PartAt(c, way).value.Compound? && PartAt(c, way).value.output == Some(f)
  {
    hide Reads, Writes, PartAt;
    forall f
      ensures f in Reads(c) <==>
                exists way :: PartAt(c, way).Some? &&
                  match PartAt(c, way).value
                  case Simple(words, input, _) => input == Some(f) || exists i :: 1 <= i < |words| && words[i] == f && (words[i] == "" || words[i][0] != '-')
                  case Subshell(_, input, _) => input == Some(f)
                  case Compound(_, _, _) => false
    {
      ReadsExact(c, f);
    }
    forall f
      ensures f in Writes(c) <==> exists way :: PartAt(c, way).Some? && !PartAt(c, way).value.Compound? && PartAt(c, way).value.output == Some(f)
    {
      WritesExact(c, f);
    }
  }

  /** The three hazards: read after write, write after read, write after write. */
  ghost predicate Conflict(r1: seq<string>, w1: seq<string>, r2: seq<string>, w2: seq<string>) {
    exists f :: (f in w1 && f in r2) || (f in r1 && f in w2) || (f in w1 && f in w2)
  }

  ghost predicate Dependent(first: Command, second: Command) {
    Conflict(Reads(first), Writes(first), Reads(second), Writes(second))
  }

  lemma {:induction false} FileWordsMembers(words: seq<string>, f: string)
    ensures f in FileWords(words) <==> f in words && NamesFile(f)
  {
    if words != [] {
      FileWordsMembers(words[1..], f);
    }
  }

  lemma {:induction false} FileWordsAppend(words: seq<string>, w: string)
    ensures FileWords(words + [w]) == FileWords(words) + (if NamesFile(w) then [w] else [])
  {
    if words == [] {
      assert words + [w] == [w];
    } else {
      assert (words + [w])[1..] == words[1..] + [w];
      FileWordsAppend(words[1..], w);
    }
  }
}
