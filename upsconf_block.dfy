/**
 * Candidates from an operator-supplied configuration block.
 *
 * The block's first character is a separator chosen by the operator; the rest,
 * with every separator turned into a newline, is handed to the configuration
 * parser, behind a synthesized "[name]" header unless it already starts with '['.
 */
module UpsConfBlock {
  import opened Classifiers

  /** What the block turns into before any parsing. */
  datatype BlockText =
    | OutOfRange               // `std::string::at` threw `std::out_of_range`
    | EmptyBlock               // separator or first content character is NUL
    | ParserInput(text: string)

  /** Outcome of reading candidates from a block. */
  datatype BlockConfigs =
    | OutOfRangeThrown
    | Parsed(configs: Configs)

  /** `std::replace(s, sep, '\n')`, as a value. */
  function Replaced(s: string, sep: char): (r: string)
    ensures |r| == |s|
  {
    if s == [] then []
    else [if s[0] == sep then '\n' else s[0]] + Replaced(s[1..], sep)
  }

  lemma {:induction false} ReplacedAt(s: string, sep: char, k: nat)
    requires k < |s|
    ensures Replaced(s, sep)[k] == if s[k] == sep then '\n' else s[k]
  {
    if k > 0 {
      ReplacedAt(s[1..], sep, k - 1);
    }
  }

  /** Unless the separator is itself a newline, no separator survives the replacement. */
  lemma ReplacedRemovesSeparator(s: string, sep: char)
    requires sep != '\n'
    ensures sep !in Replaced(s, sep)
  {
    forall k | 0 <= k < |s| ensures Replaced(s, sep)[k] != sep {
      ReplacedAt(s, sep, k);
    }
  }

  /** Replacing a second time changes nothing. */
  lemma ReplacedIdempotent(s: string, sep: char)
    ensures Replaced(Replaced(s, sep), sep) == Replaced(s, sep)
  {
    var r := Replaced(s, sep);
    forall k | 0 <= k < |s| ensures Replaced(r, sep)[k] == r[k] {
      ReplacedAt(s, sep, k);
      ReplacedAt(r, sep, k);
    }
  }

  /** `std::replace` in place over the characters of `a`. */
  method ReplaceInPlace(a: array<char>, sep: char)
    modifies a
    ensures a[..] == Replaced(old(a[..]), sep)
  {
    ghost var s := a[..];
    var i := 0;
    while i < a.Length
      invariant 0 <= i <= a.Length
      invariant forall k :: 0 <= k < i ==> a[k] == if s[k] == sep then '\n' else s[k]
      invariant forall k :: i <= k < a.Length ==> a[k] == s[k]
    {
      if a[i] == sep {
        a[i] := '\n';
      }
      i := i + 1;
    }
    forall k | 0 <= k < a.Length ensures a[k] == Replaced(s, sep)[k] {
      ReplacedAt(s, sep, k);
    }
  }

  /**
   * The text a block turns into, following the checks of the source in order:
   * which blocks throw, which count as empty, and that the parser always sees a
   * section header first.
   */
  function TextOfBlock(name: string, block: string): (r: BlockText)
    ensures r.OutOfRange? <==> |block| == 0 || (|block| == 1 && block[0] != '\0')
    ensures r.EmptyBlock? <==> |block| >= 1 && (block[0] == '\0' || (|block| >= 2 && block[1] == '\0'))
    ensures r.ParserInput? ==> |r.text| > 0 && r.text[0] == '['
  {
    if |block| == 0 then OutOfRange
    else if block[0] == '\0' then EmptyBlock
    else if |block| == 1 then OutOfRange
    else if block[1] == '\0' then EmptyBlock
    else
      var t := Replaced(block[1..], block[0]);
      if t[0] == '[' then ParserInput(t)
      else ParserInput("[" + name + "]\n" + t + "\n")
  }

  /**
   * Candidates of a block, with `parse` standing for the configuration-file
   * parser: only a block too short to index throws, and an empty block yields
   * the single candidate naming the device.
   */
  function ConfigsFromBlock(name: string, block: string, parse: string -> Configs): (r: BlockConfigs)
    ensures r.OutOfRangeThrown? <==> |block| == 0 || (|block| == 1 && block[0] != '\0')
    ensures |block| >= 1 && (block[0] == '\0' || (|block| >= 2 && block[1] == '\0')) ==>
      r == Parsed([map["name" := name]])
  {
    match TextOfBlock(name, block)
    case OutOfRange => OutOfRangeThrown
    case EmptyBlock => Parsed([map["name" := name]])
    case ParserInput(t) => Parsed(parse(t))
  }

  /**
   * For a usable block, the content is the block after its separator with every
   * separator made a newline; a header is added unless that content opens with '['.
   */
  lemma TextOfBlockContent(name: string, block: string)
    requires |block| >= 2 && block[0] != '\0' && block[1] != '\0'
    ensures var r := TextOfBlock(name, block);
      var content := Replaced(block[1..], block[0]);
      && r.ParserInput?
      && |content| == |block| - 1
      && (forall k :: 1 <= k < |block| && block[k] != block[0] ==> content[k - 1] == block[k])
      && (forall k :: 1 <= k < |block| && block[k] == block[0] ==> content[k - 1] == '\n')
      && (block[1] == '[' && block[0] != '[' ==> r.text == content)
      && (block[1] != '[' || block[0] == '[' ==> r.text == "[" + name + "]\n" + content + "\n")
  {
    var content := Replaced(block[1..], block[0]);
    forall k | 1 <= k < |block| ensures content[k - 1] == if block[k] == block[0] then '\n' else block[k] {
      ReplacedAt(block[1..], block[0], k - 1);
    }
  }

  lemma {:induction false} ReplacedAppend(a: string, b: string, sep: char)
    ensures Replaced(a + b, sep) == Replaced(a, sep) + Replaced(b, sep)
  {
    if a == [] {
      assert a + b == b;
    } else {
      assert (a + b)[0] == a[0];
      assert (a + b)[1..] == a[1..] + b;
      ReplacedAppend(a[1..], b, sep);
    }
  }

  /** A text without the separator is left as it is. */
  lemma {:induction false} ReplacedWithoutSeparator(s: string, sep: char)
    requires sep !in s
    ensures Replaced(s, sep) == s
  {
    if s != [] {
      ReplacedWithoutSeparator(s[1..], sep);
    }
  }

  /** A two-line content-only block gets a header naming the device, and its separators become newlines. */
  lemma ContentOnlyBlock(name: string, sep: char, first: string, second: string)
    requires sep != '\0'
    requires first != [] && first[0] != '[' && first[0] != '\0'
    requires sep !in first && sep !in second
    ensures TextOfBlock(name, [sep] + first + [sep] + second) ==
      ParserInput("[" + name + "]\n" + first + "\n" + second + "\n")
  {
    var block := [sep] + first + [sep] + second;
    assert block[1..] == first + [sep] + second;
    assert block[1] == first[0];
    ReplacedAppend(first + [sep], second, sep);
    ReplacedAppend(first, [sep], sep);
    ReplacedWithoutSeparator(first, sep);
    ReplacedWithoutSeparator(second, sep);
    assert Replaced([sep], sep) == "\n";
    TextOfBlockContent(name, block);
  }

  /** `getConfigurationFromUpsConfBlock`, rewriting the block text in place. */
  method ConfigurationFromUpsConfBlock(name: string, block: string, parse: string -> Configs)
    returns (r: BlockConfigs)
    ensures r == ConfigsFromBlock(name, block, parse)
  {
    if |block| == 0 {
      return OutOfRangeThrown;
    }
    var sep := block[0];
    if sep == '\0' {
      return Parsed([map["name" := name]]);
    }
    if |block| == 1 {
      return OutOfRangeThrown;
    }
    if block[1] == '\0' {
      return Parsed([map["name" := name]]);
    }
    var ubn := new char[|block| - 1](i requires 0 <= i < |block| - 1 => block[i + 1]);
    assert ubn[..] == block[1..];
    ReplaceInPlace(ubn, sep);
    var text := ubn[..];
    if text[0] == '[' {
      r := Parsed(parse(text));
    } else {
      r := Parsed(parse("[" + name + "]\n" + text + "\n"));
    }
  }
}
