/**
 * Program.ParseArguments: the command-line parser that turns a token list into an input
 * directory, an operation, a padding and an atlas name, re-prompting on every rejected input.
 * Directory.Exists, and the two file probes of the post-scan switch, are sets of directories;
 * the lines Console.ReadLine would return are a supplied sequence (None is a null line).
 */
module Program {
  import opened Wrappers
  import opened AtlasNames

  // ---------------------------------------------------------------------------------------------
  // The string operations the parser calls

  /** The characters .NET's integer parsing skips around a number: U+0009 to U+000D and space. */
  const Whitespace: set<char> := {'\t', '\n', '\U{B}', '\U{C}', '\r', ' '}

  /**
   * The characters String.Trim() removes, those for which char.IsWhiteSpace holds: U+0009 to
   * U+000D, space, U+0085, U+00A0, U+1680, U+2000 to U+200A, U+2028, U+2029, U+202F, U+205F, U+3000.
   */
  const TrimWhitespace: set<char> := Whitespace + {
    '\U{85}', '\U{A0}', '\U{1680}',
    '\U{2000}', '\U{2001}', '\U{2002}', '\U{2003}', '\U{2004}', '\U{2005}',
    '\U{2006}', '\U{2007}', '\U{2008}', '\U{2009}', '\U{200A}',
    '\U{2028}', '\U{2029}', '\U{202F}', '\U{205F}', '\U{3000}'}

  /** The index of the first character at or after i that is not in strip, or |s|. */
  function SkipLeading(s: string, strip: set<char>, i: nat): (k: nat)
    requires i <= |s|
    ensures i <= k <= |s| && (forall m :: i <= m < k ==> s[m] in strip) && (k < |s| ==> s[k] !in strip)
    decreases |s| - i
  {
    if i < |s| && s[i] in strip then SkipLeading(s, strip, i + 1) else i
  }

  /** The end of s[lo..j] once the characters in strip at its end are dropped. */
  function SkipTrailing(s: string, strip: set<char>, lo: nat, j: nat): (k: nat)
    requires lo <= j <= |s|
    ensures lo <= k <= j && (forall m :: k <= m < j ==> s[m] in strip) && (k > lo ==> s[k - 1] !in strip)
    decreases j
  {
    if j > lo && s[j - 1] in strip then SkipTrailing(s, strip, lo, j - 1) else j
  }

  /**
   * String.Trim(chars): the part of s left once every leading and every trailing character in
   * strip is removed.
   */
  function Trim(s: string, strip: set<char>): (t: string)
    ensures |t| > 0 ==> t[0] !in strip && t[|t| - 1] !in strip
  {
    var i := SkipLeading(s, strip, 0);
    s[i..SkipTrailing(s, strip, i, |s|)]
  }

  /** Trim removes characters in strip and nothing else: what is left is a slice of s. */
  lemma TrimIsSlice(s: string, strip: set<char>)
    ensures exists i, j :: 0 <= i <= j <= |s| && Trim(s, strip) == s[i..j]
              && (forall m :: 0 <= m < i ==> s[m] in strip)
              && (forall m :: j <= m < |s| ==> s[m] in strip)
  {
    var i := SkipLeading(s, strip, 0);
    var j := SkipTrailing(s, strip, i, |s|);
    assert Trim(s, strip) == s[i..j];
    assert forall m :: 0 <= m < i ==> s[m] in strip;
    assert forall m :: j <= m < |s| ==> s[m] in strip;
  }

  /**
   * Trim('"'): the quotes around a directory or an atlas name. What is left neither starts nor
   * ends with a quote, and a name without a quote at either end is kept as it is.
   */
  function TrimQuotes(s: string): (t: string)
    ensures |t| <= |s|
    ensures |t| > 0 ==> t[0] != '"' && t[|t| - 1] != '"'
    ensures (|s| > 0 ==> s[0] != '"' && s[|s| - 1] != '"') ==> t == s
  {
    Trim(s, {'"'})
  }

  /** The non-space characters of s, in order. */
  function NonSpace(s: string): string
  {
    if |s| == 0 then [] else (if s[0] == ' ' then [] else [s[0]]) + NonSpace(s[1..])
  }

  /** The tokens laid end to end. */
  function Concat(tokens: seq<string>): string
  {
    if |tokens| == 0 then [] else tokens[0] + Concat(tokens[1..])
  }

  /** The longest prefix of s without a space. */
  function Word(s: string): (w: string)
    ensures |w| <= |s| && w == s[..|w|] && ' ' !in w
    ensures |w| < |s| ==> s[|w|] == ' '
    ensures |s| > 0 && s[0] != ' ' ==> |w| > 0
  {
    if |s| == 0 || s[0] == ' ' then [] else [s[0]] + Word(s[1..])
  }

  /** Split(' ', StringSplitOptions.RemoveEmptyEntries). */
  function SplitOnSpace(s: string): (tokens: seq<string>)
    ensures forall k :: 0 <= k < |tokens| ==> |tokens[k]| > 0 && ' ' !in tokens[k]
    decreases |s|
  {
    if |s| == 0 then []
    else if s[0] == ' ' then SplitOnSpace(s[1..])
    else var w := Word(s); [w] + SplitOnSpace(s[|w|..])
  }

  /**
   * When s does not start (end) with a space, its first (last) token starts (ends) with the first
   * (last) character of s.
   */
  lemma {:induction false} SplitEnds(s: string)
    ensures |s| > 0 && s[0] != ' ' ==> |SplitOnSpace(s)| > 0 && SplitOnSpace(s)[0][0] == s[0]
    ensures |s| > 0 && s[|s| - 1] != ' ' ==>
              var tokens := SplitOnSpace(s);
              |tokens| > 0 && tokens[|tokens| - 1][|tokens[|tokens| - 1]| - 1] == s[|s| - 1]
    decreases |s|
  {
    if |s| > 0 {
      if s[0] == ' ' {
        SplitEnds(s[1..]);
      } else {
        var w := Word(s);
        var rest := s[|w|..];
        SplitEnds(rest);
        assert SplitOnSpace(s) == [w] + SplitOnSpace(rest);
        if |rest| == 0 {
          assert w == s;
        }
      }
    }
  }

  /** A word's characters are exactly the non-space characters of its part of s. */
  lemma {:induction false} WordNonSpace(s: string)
    ensures NonSpace(s) == Word(s) + NonSpace(s[|Word(s)|..])
    decreases |s|
  {
    if |s| > 0 && s[0] != ' ' {
      var w := Word(s[1..]);
      var rest := s[|w| + 1..];
      WordNonSpace(s[1..]);
      assert s[1..][|w|..] == rest;
      assert Word(s) == [s[0]] + w;
      assert NonSpace(s) == [s[0]] + (w + NonSpace(rest));
      assert [s[0]] + (w + NonSpace(rest)) == ([s[0]] + w) + NonSpace(rest);
    } else {
      assert s[0..] == s;
    }
  }

  /** Splitting loses only spaces: the tokens laid end to end are the non-space characters of s. */
  lemma {:induction false} SplitKeepsCharacters(s: string)
    ensures Concat(SplitOnSpace(s)) == NonSpace(s)
    decreases |s|
  {
    if |s| > 0 {
      if s[0] == ' ' {
        SplitKeepsCharacters(s[1..]);
      } else {
        var w := Word(s);
        SplitKeepsCharacters(s[|w|..]);
        WordNonSpace(s);
        var tokens := SplitOnSpace(s);
        assert tokens[1..] == SplitOnSpace(s[|w|..]);
      }
    }
  }

  /** A line that is one word is one token. */
  lemma SplitOneWord(s: string)
    requires |s| > 0 && ' ' !in s
    ensures SplitOnSpace(s) == [s]
  {
    assert Word(s) == s by {
      WordWhole(s);
    }
    assert s[|s|..] == [];
  }

  lemma {:induction false} WordWhole(s: string)
    requires ' ' !in s
    ensures Word(s) == s
    decreases |s|
  {
    if |s| > 0 {
      assert s[0] in s;
      assert ' ' !in s[1..] by {
        forall k | 0 <= k < |s[1..]| ensures s[1..][k] != ' ' {
          assert s[1..][k] == s[k + 1];
        }
      }
      WordWhole(s[1..]);
    }
  }

  // ---------------------------------------------------------------------------------------------
  // int.TryParse

  const Int32Min := -0x8000_0000
  const Int32Max := 0x7FFF_FFFF

  predicate IsDigit(c: char)
  {
    '0' <= c <= '9'
  }

  predicate AllDigits(s: string)
  {
    forall k :: 0 <= k < |s| ==> IsDigit(s[k])
  }

  /** The value of a string of decimal digits, most significant first. */
  function DigitsValue(s: string): (n: nat)
    requires AllDigits(s)
  {
    if |s| == 0 then 0 else DigitsValue(s[..|s| - 1]) * 10 + (s[|s| - 1] as int - '0' as int)
  }

  /** The value of a non-empty string of digits, or None. */
  function ParseDigitString(digits: string): (r: Option<nat>)
    ensures r.Some? <==> |digits| > 0 && AllDigits(digits)
  {
    if |digits| == 0 || !AllDigits(digits) then None else Some(DigitsValue(digits))
  }

  /** The number an optional sign and a magnitude stand for, if it fits in 32 bits. */
  function InRange(negative: bool, magnitude: nat): (r: Option<int>)
    ensures r.Some? ==> Int32Min <= r.value <= Int32Max
  {
    var n: int := if negative then 0 - magnitude else magnitude;
    if Int32Min <= n <= Int32Max then Some(n) else None
  }

  /**
   * int.TryParse with the default number style: whitespace around the number, an optional sign,
   * at least one digit, and a value inside the 32-bit range; anything else fails.
   */
  function ParseInt32(s: string): (r: Option<int>)
    ensures r.Some? ==> Int32Min <= r.value <= Int32Max
  {
    var t := Trim(s, Whitespace);
    var signed := |t| > 0 && (t[0] == '-' || t[0] == '+');
    match ParseDigitString(if signed then t[1..] else t)
    case None => None
    case Some(magnitude) => InRange(signed && t[0] == '-', magnitude)
  }

  /** The decimal digits of n, as Int32.ToString writes them. */
  function ShowNat(n: nat): (s: string)
    ensures |s| > 0 && AllDigits(s)
  {
    if n < 10 then [('0' as int + n) as char] else ShowNat(n / 10) + [('0' as int + n % 10) as char]
  }

  lemma {:induction false} ShowNatValue(n: nat)
    ensures DigitsValue(ShowNat(n)) == n
  {
    if n >= 10 {
      ShowNatValue(n / 10);
      var s := ShowNat(n);
      assert s[..|s| - 1] == ShowNat(n / 10);
    }
  }

  /** A string of digits parses to its value when that is in range. */
  lemma ParseDigits(digits: string)
    requires |digits| > 0 && AllDigits(digits)
    ensures DigitsValue(digits) <= Int32Max ==> ParseInt32(digits) == Some(DigitsValue(digits))
    ensures DigitsValue(digits) > Int32Max ==> ParseInt32(digits) == None
  {
    assert IsDigit(digits[0]) && IsDigit(digits[|digits| - 1]);
    TrimNothing(digits, Whitespace);
  }

  /** A minus sign and a string of digits parse to the negated value when that is in range. */
  lemma ParseNegatedDigits(digits: string)
    requires |digits| > 0 && AllDigits(digits)
    ensures DigitsValue(digits) <= -Int32Min ==> ParseInt32("-" + digits) == Some(-(DigitsValue(digits) as int))
    ensures DigitsValue(digits) > -Int32Min ==> ParseInt32("-" + digits) == None
  {
    var negated := "-" + digits;
    assert negated[1..] == digits;
    assert negated[|negated| - 1] == digits[|digits| - 1];
    ParseMinus(negated);
  }

  lemma ParseMinus(t: string)
    requires |t| > 1 && t[0] == '-' && AllDigits(t[1..]) && IsDigit(t[|t| - 1])
    ensures ParseInt32(t) == InRange(true, DigitsValue(t[1..]))
  {
    TrimNothing(t, Whitespace);
  }

  /** Parsing the decimal form of a number in range gives the number back, with either sign. */
  lemma ParseShowRoundTrip(n: int)
    requires Int32Min <= n <= Int32Max
    ensures n >= 0 ==> ParseInt32(ShowNat(n)) == Some(n)
    ensures n < 0 ==> ParseInt32("-" + ShowNat(-n)) == Some(n)
  {
    if n >= 0 {
      ShowNatValue(n);
      ParseDigits(ShowNat(n));
    } else {
      ShowNatValue(-n);
      ParseNegatedDigits(ShowNat(-n));
    }
  }

  /** A number past the 32-bit range, with either sign, does not parse. */
  lemma ParseShowOutOfRange(n: int)
    requires n < Int32Min || Int32Max < n
    ensures n > Int32Max ==> ParseInt32(ShowNat(n)) == None
    ensures n < Int32Min ==> ParseInt32("-" + ShowNat(-n)) == None
  {
    if n >= 0 {
      ShowNatValue(n);
      ParseDigits(ShowNat(n));
    } else {
      ShowNatValue(-n);
      ParseNegatedDigits(ShowNat(-n));
    }
  }

  lemma TrimNothing(s: string, strip: set<char>)
    requires |s| > 0 ==> s[0] !in strip && s[|s| - 1] !in strip
    ensures Trim(s, strip) == s
  {
  }

  /** A signed or unsigned number parses to its value. */
  lemma ParseInt32Numbers()
    ensures ParseInt32("12") == Some(12)
    ensures ParseInt32("-3") == Some(-3)
    ensures ParseInt32("+7") == Some(7)
  {
    TrimNothing("12", Whitespace);
    TrimNothing("-3", Whitespace);
    TrimNothing("+7", Whitespace);
    assert "12"[..1] == "1";
    assert DigitsValue("12") == 12;
    assert "-3"[1..] == "3";
    assert "+7"[1..] == "7";
  }

  /** Whitespace around the number is skipped. */
  lemma ParseInt32Whitespace()
    ensures ParseInt32("\t5 ") == Some(5)
  {
    assert Trim("\t5 ", Whitespace) == "5" by {
      assert SkipLeading("\t5 ", Whitespace, 0) == 1;
      assert SkipTrailing("\t5 ", Whitespace, 1, 3) == 2;
      assert "\t5 "[1..2] == "5";
    }
    assert "5"[..0] == "";
    assert DigitsValue("5") == 5;
  }

  /** Text that is not a number, and a bare sign, do not parse. */
  lemma ParseInt32Failures()
    ensures ParseInt32("1x") == None
    ensures ParseInt32("-") == None
  {
    TrimNothing("1x", Whitespace);
    TrimNothing("-", Whitespace);
    assert "1x"[1] == 'x';
    assert "-"[1..] == "";
  }

  // ---------------------------------------------------------------------------------------------
  // One attempt: the checks of Program.cs:69-111, the option scan of :113-172, the result at :174-216

  /** What ParseArguments returns. */
  datatype Parsed = Parsed(inputDirectory: string, operation: string, padding: int, atlasName: string)

  /** Why an attempt is rejected and the parser asks for another line. */
  datatype Rejection =
    | NoArguments          // an empty token list
    | HelpShown            // help, --help or -h as the first token
    | DirectoryMissing     // the first token, unquoted, is not an existing directory
    | NoOperation          // not exactly one of --stitch and --unstitch among the tokens
    | InvalidArguments     // the option scan marked the input invalid
    | NoPngFiles           // the "stitch" case of the post-scan switch
    | NoAtlasFound         // the "unstitch" case of the post-scan switch

  datatype Attempt = Accepted(parsed: Parsed) | Rejected(rejection: Rejection)

  /** The variables the option scan updates. */
  datatype ScanState = ScanState(operation: string, padding: int, atlasName: string, invalid: bool)

  /** The values before the scan: no operation, the default padding of 2, no atlas name. */
  const ScanStart := ScanState("", 2, "", false)

  /** Equals(..., OrdinalIgnoreCase) against help, --help and -h. */
  predicate IsHelp(token: string)
  {
    ToLower(token) == "help" || ToLower(token) == "--help" || ToLower(token) == "-h"
  }

  /** The case-sensitive Contains test: exactly one of the two operation switches is a token. */
  predicate ExactlyOneOperation(tokens: seq<string>)
  {
    ("--stitch" in tokens || "--unstitch" in tokens) && !("--stitch" in tokens && "--unstitch" in tokens)
  }

  /**
   * One pass of the switch in the option loop at token i: the state after it and the index the
   * loop goes on from (one further when the option consumed its value).
   */
  function ScanStep(tokens: seq<string>, i: nat, st: ScanState): (r: (nat, ScanState))
    requires i < |tokens|
    ensures i < r.0 <= i + 2 && r.0 <= |tokens| + 1
    ensures ToLower(tokens[i]) !in {"--stitch", "--unstitch", "--padding"} ==> r == (i + 1, st.(invalid := true))
  {
    var token := ToLower(tokens[i]);
    if token == "--stitch" || token == "--unstitch" then SwitchStep(tokens, i, token, st)
    else if token == "--padding" then PaddingStep(tokens, i, st)
    else (i + 1, st.(invalid := true))
  }

  /** The --stitch and --unstitch case: the operation is set, and the next token is the atlas name. */
  function SwitchStep(tokens: seq<string>, i: nat, operation: string, st: ScanState): (r: (nat, ScanState))
    requires i < |tokens|
    ensures r.1.operation == operation && r.1.padding == st.padding && (st.invalid ==> r.1.invalid)
    ensures i + 1 < |tokens| ==> r.0 == i + 2 && r.1.atlasName == TrimQuotes(tokens[i + 1])
                                 && (r.1.invalid <==> st.invalid || r.1.atlasName == "")
    ensures i + 1 >= |tokens| ==> r == (i + 1, st.(operation := operation, invalid := true))
  {
    if i + 1 < |tokens| then
      var name := TrimQuotes(tokens[i + 1]);
      (i + 2, st.(operation := operation, atlasName := name, invalid := st.invalid || name == ""))
    else (i + 1, st.(operation := operation, invalid := true))
  }

  /** The --padding case: a number after it becomes the padding, anything else makes the input invalid. */
  function PaddingStep(tokens: seq<string>, i: nat, st: ScanState): (r: (nat, ScanState))
    requires i < |tokens|
    ensures r.1.operation == st.operation && r.1.atlasName == st.atlasName
    ensures i + 1 < |tokens| && ParseInt32(tokens[i + 1]).Some? ==>
              r == (i + 2, st.(padding := ParseInt32(tokens[i + 1]).value))
    ensures !(i + 1 < |tokens| && ParseInt32(tokens[i + 1]).Some?) ==> r == (i + 1, st.(invalid := true))
  {
    if i + 1 < |tokens| && ParseInt32(tokens[i + 1]).Some? then
      (i + 2, st.(padding := ParseInt32(tokens[i + 1]).value))
    else (i + 1, st.(invalid := true))
  }

  /** The option loop from token i on; an input marked invalid stays invalid. */
  function ScanFrom(tokens: seq<string>, i: nat, st: ScanState): (r: ScanState)
    ensures st.invalid ==> r.invalid
    decreases |tokens| - i
  {
    if i >= |tokens| then st
    else var (j, next) := ScanStep(tokens, i, st); ScanFrom(tokens, j, next)
  }

  /**
   * One pass of the outer loop over a token list: the checks in source order, the scan, and the
   * post-scan switch, whose cases test "stitch" and "unstitch" without dashes.
   */
  function ParseAttempt(tokens: seq<string>, dirs: set<string>, pngDirs: set<string>, atlasDirs: set<string>)
    : (r: Attempt)
    ensures |tokens| == 0 ==> r == Rejected(NoArguments)
    ensures |tokens| > 0 && IsHelp(tokens[0]) ==> r == Rejected(HelpShown)
    ensures |tokens| > 0 && !IsHelp(tokens[0]) && TrimQuotes(tokens[0]) !in dirs ==> r == Rejected(DirectoryMissing)
    ensures r.Accepted? ==> |tokens| > 0 && r.parsed.inputDirectory == TrimQuotes(tokens[0])
  {
    if |tokens| == 0 then Rejected(NoArguments)
    else if IsHelp(tokens[0]) then Rejected(HelpShown)
    else
      var dir := TrimQuotes(tokens[0]);
      if dir !in dirs then Rejected(DirectoryMissing)
      else if !ExactlyOneOperation(tokens) then Rejected(NoOperation)
      else Conclude(dir, ScanFrom(tokens, 1, ScanStart), pngDirs, atlasDirs)
  }

  /** The end of an attempt once the scan has run: its invalid flag, then the post-scan switch. */
  function Conclude(dir: string, st: ScanState, pngDirs: set<string>, atlasDirs: set<string>): (r: Attempt)
    ensures r.Accepted? ==> !st.invalid && r.parsed == Parsed(dir, st.operation, st.padding, st.atlasName)
    ensures st.invalid ==> r == Rejected(InvalidArguments)
  {
    var parsed := Parsed(dir, st.operation, st.padding, st.atlasName);
    if st.invalid then Rejected(InvalidArguments)
    else if st.operation == "stitch" then (if dir in pngDirs then Accepted(parsed) else Rejected(NoPngFiles))
    else if st.operation == "unstitch" then (if dir in atlasDirs then Accepted(parsed) else Rejected(NoAtlasFound))
    else Accepted(parsed)
  }

  // ---------------------------------------------------------------------------------------------
  // The successive attempts of the outer loop

  /**
   * A line from Console.ReadLine, trimmed of every white-space character and split at spaces with
   * the empty entries removed; a null line is empty. The tokens are non-empty and hold no space,
   * and laid end to end they are the trimmed line without its spaces (SplitKeepsCharacters).
   */
  function Tokenize(line: Option<string>): (tokens: seq<string>)
    ensures line.None? ==> tokens == []
    ensures forall k :: 0 <= k < |tokens| ==> |tokens[k]| > 0 && ' ' !in tokens[k]
    ensures |tokens| > 0 ==> tokens[0][0] !in TrimWhitespace
                             && tokens[|tokens| - 1][|tokens[|tokens| - 1]| - 1] !in TrimWhitespace
  {
    var trimmed := Trim(if line.Some? then line.value else "", TrimWhitespace);
    SplitEnds(trimmed);
    SplitOnSpace(trimmed)
  }

  /** The token lists the outer loop tries: the command-line arguments if any, then each line read. */
  function Attempts(args: seq<string>, lines: seq<Option<string>>): (attempts: seq<seq<string>>)
    ensures |attempts| == (if |args| > 0 then 1 else 0) + |lines|
    ensures |args| > 0 ==> attempts[0] == args
    ensures attempts[|attempts| - |lines|..] == LineAttempts(lines)
  {
    var first := if |args| > 0 then [args] else [];
    assert (first + LineAttempts(lines))[|first|..] == LineAttempts(lines);
    first + LineAttempts(lines)
  }

  /** The token lists of the lines read, in order. */
  function LineAttempts(lines: seq<Option<string>>): (attempts: seq<seq<string>>)
    ensures |attempts| == |lines| && forall k :: 0 <= k < |lines| ==> attempts[k] == Tokenize(lines[k])
  {
    if |lines| == 0 then [] else [Tokenize(lines[0])] + LineAttempts(lines[1..])
  }

  /** The result of the first accepted token list, or None when every one is rejected. */
  function FirstAccepted(attempts: seq<seq<string>>, dirs: set<string>, pngDirs: set<string>, atlasDirs: set<string>)
    : Option<Parsed>
  {
    if |attempts| == 0 then None
    else match ParseAttempt(attempts[0], dirs, pngDirs, atlasDirs)
      case Accepted(p) => Some(p)
      case Rejected(_) => FirstAccepted(attempts[1..], dirs, pngDirs, atlasDirs)
  }

  /** FirstAccepted picks the earliest accepted attempt: every one before it is rejected. */
  lemma {:induction false} FirstAcceptedIsFirst(attempts: seq<seq<string>>, dirs: set<string>,
                                                pngDirs: set<string>, atlasDirs: set<string>)
    ensures FirstAccepted(attempts, dirs, pngDirs, atlasDirs).None? <==>
              forall k :: 0 <= k < |attempts| ==> ParseAttempt(attempts[k], dirs, pngDirs, atlasDirs).Rejected?
    ensures FirstAccepted(attempts, dirs, pngDirs, atlasDirs).Some? ==>
              exists k :: 0 <= k < |attempts|
                && ParseAttempt(attempts[k], dirs, pngDirs, atlasDirs) == Accepted(FirstAccepted(attempts, dirs, pngDirs, atlasDirs).value)
                && forall j :: 0 <= j < k ==> ParseAttempt(attempts[j], dirs, pngDirs, atlasDirs).Rejected?
  {
    if |attempts| > 0 {
      var first := FirstAccepted(attempts, dirs, pngDirs, atlasDirs);
      var tail := attempts[1..];
      FirstAcceptedIsFirst(tail, dirs, pngDirs, atlasDirs);
      if ParseAttempt(attempts[0], dirs, pngDirs, atlasDirs).Rejected? {
        assert first == FirstAccepted(tail, dirs, pngDirs, atlasDirs);
        assert forall k :: 0 < k < |attempts| ==> tail[k - 1] == attempts[k];
        if first.Some? {
          var k :| 0 <= k < |tail|
                   && ParseAttempt(tail[k], dirs, pngDirs, atlasDirs) == Accepted(first.value)
                   && forall j :: 0 <= j < k ==> ParseAttempt(tail[j], dirs, pngDirs, atlasDirs).Rejected?;
          assert ParseAttempt(attempts[k + 1], dirs, pngDirs, atlasDirs) == Accepted(first.value);
          forall j | 0 <= j < k + 1
            ensures ParseAttempt(attempts[j], dirs, pngDirs, atlasDirs).Rejected?
          {
            if j > 0 {
              assert attempts[j] == tail[j - 1];
            }
          }
        }
      } else {
        assert ParseAttempt(attempts[0], dirs, pngDirs, atlasDirs) == Accepted(first.value);
      }
    }
  }

  // ---------------------------------------------------------------------------------------------
  // The methods

  /** The option loop of Program.cs:113-172, with its manual skip over consumed values. */
  method ScanOptions(inputArgs: seq<string>) returns (operation: string, padding: int, atlasName: string, invalidArgs: bool)
    ensures ScanState(operation, padding, atlasName, invalidArgs) == ScanFrom(inputArgs, 1, ScanStart)
  {
    operation, padding, atlasName, invalidArgs := "", 2, "", false;
    var i := 1;
    while i < |inputArgs|
      invariant 1 <= i
      invariant ScanFrom(inputArgs, i, ScanState(operation, padding, atlasName, invalidArgs))
             == ScanFrom(inputArgs, 1, ScanStart)
      decreases |inputArgs| - i
    {
      ghost var st := ScanState(operation, padding, atlasName, invalidArgs);
      ghost var step := ScanStep(inputArgs, i, st);
      ScanFromStep(inputArgs, i, st);
      var token := ToLower(inputArgs[i]);
      if token == "--stitch" || token == "--unstitch" {
        assert step == SwitchStep(inputArgs, i, token, st);
        operation := token;
        if i + 1 < |inputArgs| {
          atlasName := TrimQuotes(inputArgs[i + 1]);
          if atlasName == "" {
            invalidArgs := true;
          }
          i := i + 1;
        } else {
          invalidArgs := true;
        }
      } else if token == "--padding" {
        assert step == PaddingStep(inputArgs, i, st);
        var parsedPadding := if i + 1 < |inputArgs| then ParseInt32(inputArgs[i + 1]) else None;
        if parsedPadding.Some? {
          padding := parsedPadding.value;
          i := i + 1;
        } else {
          invalidArgs := true;
        }
      } else {
        assert step == (i + 1, st.(invalid := true));
        invalidArgs := true;
      }
      i := i + 1;
      assert i == step.0 && ScanState(operation, padding, atlasName, invalidArgs) == step.1;
    }
  }

  /** The scan from a token goes on from where its step leaves it. */
  lemma ScanFromStep(tokens: seq<string>, i: nat, st: ScanState)
    requires i < |tokens|
    ensures ScanFrom(tokens, i, st) == ScanFrom(tokens, ScanStep(tokens, i, st).0, ScanStep(tokens, i, st).1)
  {
  }

  /** One pass of the outer loop on a token list, from the checks to the result. */
  method TryArguments(inputArgs: seq<string>, dirs: set<string>, pngDirs: set<string>, atlasDirs: set<string>)
    returns (r: Attempt)
    ensures r == ParseAttempt(inputArgs, dirs, pngDirs, atlasDirs)
  {
    if |inputArgs| == 0 {
      return Rejected(NoArguments);
    }
    var inputDirectory := TrimQuotes(inputArgs[0]);
    if IsHelp(inputArgs[0]) {
      return Rejected(HelpShown);
    }
    if inputDirectory !in dirs {
      return Rejected(DirectoryMissing);
    }
    if !("--stitch" in inputArgs || "--unstitch" in inputArgs) || ("--stitch" in inputArgs && "--unstitch" in inputArgs) {
      return Rejected(NoOperation);
    }
    var operation, padding, atlasName, invalidArgs := ScanOptions(inputArgs);
    if invalidArgs {
      return Rejected(InvalidArguments);
    }
    if operation == "stitch" {
      if inputDirectory !in pngDirs {
        return Rejected(NoPngFiles);
      }
    } else if operation == "unstitch" {
      if inputDirectory in atlasDirs {
        return Accepted(Parsed(inputDirectory, operation, padding, atlasName));
      }
      return Rejected(NoAtlasFound);
    }
    return Accepted(Parsed(inputDirectory, operation, padding, atlasName));
  }

  /**
   * Program.ParseArguments: the command-line arguments first, then one line read per rejected
   * attempt, until an attempt is accepted. None when the supplied lines run out first (the
   * program would go on waiting for input).
   */
  method ParseArguments(args: seq<string>, lines: seq<Option<string>>,
                        dirs: set<string>, pngDirs: set<string>, atlasDirs: set<string>)
    returns (r: Option<Parsed>)
    ensures r == FirstAccepted(Attempts(args, lines), dirs, pngDirs, atlasDirs)
  {
    var currentArgs := args;
    var read := 0;
    assert lines[read..] == lines;
    while true
      invariant read <= |lines| && (read > 0 ==> currentArgs == [])
      invariant FirstAccepted(Attempts(currentArgs, lines[read..]), dirs, pngDirs, atlasDirs)
             == FirstAccepted(Attempts(args, lines), dirs, pngDirs, atlasDirs)
      decreases |lines| - read, |currentArgs|
    {
      ghost var pending := Attempts(currentArgs, lines[read..]);
      var inputArgs: seq<string>;
      if |currentArgs| == 0 {
        if read == |lines| {
          assert pending == [];
          return None;
        }
        inputArgs := Tokenize(lines[read]);
        AttemptsPop(lines, read);
        read := read + 1;
      } else {
        inputArgs := currentArgs;
        AttemptsArgs(currentArgs, lines[read..]);
      }
      ghost var rest := Attempts([], lines[read..]);
      assert pending == [inputArgs] + rest;
      FirstAcceptedCons(inputArgs, rest, dirs, pngDirs, atlasDirs);
      var attempt := TryArguments(inputArgs, dirs, pngDirs, atlasDirs);
      if attempt.Accepted? {
        return Some(attempt.parsed);
      }
      currentArgs := [];
    }
  }

  /** The first accepted attempt of a list is its head's result, or else that of its tail. */
  lemma FirstAcceptedCons(head: seq<string>, rest: seq<seq<string>>,
                          dirs: set<string>, pngDirs: set<string>, atlasDirs: set<string>)
    ensures FirstAccepted([head] + rest, dirs, pngDirs, atlasDirs)
         == match ParseAttempt(head, dirs, pngDirs, atlasDirs)
            case Accepted(p) => Some(p)
            case Rejected(_) => FirstAccepted(rest, dirs, pngDirs, atlasDirs)
  {
    assert ([head] + rest)[1..] == rest;
  }

  /** The attempts after reading one line are those of the remaining lines. */
  lemma AttemptsPop(lines: seq<Option<string>>, read: nat)
    requires read < |lines|
    ensures Attempts([], lines[read..]) == [Tokenize(lines[read])] + Attempts([], lines[read + 1..])
  {
    assert lines[read..][1..] == lines[read + 1..];
    assert Attempts([], lines[read..]) == LineAttempts(lines[read..]);
    assert Attempts([], lines[read + 1..]) == LineAttempts(lines[read + 1..]);
  }

  /** Command-line arguments, when there are any, are tried before every line. */
  lemma AttemptsArgs(args: seq<string>, lines: seq<Option<string>>)
    requires |args| > 0
    ensures Attempts(args, lines) == [args] + Attempts([], lines)
  {
    assert Attempts([], lines) == LineAttempts(lines);
  }

  // ---------------------------------------------------------------------------------------------
  // Properties of the scan

  /** The invariant of the scan: an operation switch always comes with its atlas name. */
  ghost predicate NameMatchesOperation(st: ScanState)
  {
    (st.operation == "" <==> st.atlasName == "") || st.invalid
  }

  /** Once marked invalid, the input stays invalid; an operation, once set, stays set. */
  lemma {:induction false} ScanKeeps(tokens: seq<string>, i: nat, st: ScanState)
    ensures st.invalid ==> ScanFrom(tokens, i, st).invalid
    ensures st.operation != "" ==> ScanFrom(tokens, i, st).operation != ""
    ensures NameMatchesOperation(st) ==> NameMatchesOperation(ScanFrom(tokens, i, st))
    ensures ScanFrom(tokens, i, st).operation in {st.operation, "--stitch", "--unstitch"}
    decreases |tokens| - i
  {
    if i < |tokens| {
      var (j, next) := ScanStep(tokens, i, st);
      ScanKeeps(tokens, j, next);
    }
  }

  /** The padding is 2 unless some scanned token is --padding, in any case. */
  lemma {:induction false} ScanPaddingDefault(tokens: seq<string>, i: nat, st: ScanState)
    requires forall k :: i <= k < |tokens| ==> ToLower(tokens[k]) != "--padding"
    ensures ScanFrom(tokens, i, st).padding == st.padding
    decreases |tokens| - i
  {
    if i < |tokens| {
      var (j, next) := ScanStep(tokens, i, st);
      ScanPaddingDefault(tokens, j, next);
    }
  }

  /**
   * With no operation set by the end, no token after i is "--stitch" or "--unstitch" in the exact
   * case: every such token would either be scanned as a switch or be a value the scan consumed,
   * and a value consumed by --padding parses as a number while one after a switch sets the operation.
   */
  lemma {:induction false} ScanFindsOperation(tokens: seq<string>, i: nat, st: ScanState)
    requires st.operation == "" && i >= 1
    requires ScanFrom(tokens, i, st).operation == ""
    ensures forall k :: i <= k < |tokens| ==> tokens[k] != "--stitch" && tokens[k] != "--unstitch"
    decreases |tokens| - i
  {
    if i < |tokens| {
      var step := ScanStep(tokens, i, st);
      assert ScanFrom(tokens, i, st) == ScanFrom(tokens, step.0, step.1);
      ScanKeeps(tokens, step.0, step.1);
      ScanFindsOperation(tokens, step.0, step.1);
      StepWithoutOperation(tokens, i, st);
      NoSwitchFrom(tokens, i, step.0);
    }
  }

  /** No operation switch at i, none consumed with it, and none from j on: none from i on. */
  lemma NoSwitchFrom(tokens: seq<string>, i: nat, j: nat)
    requires i < |tokens| && i < j <= i + 2
    requires tokens[i] != "--stitch" && tokens[i] != "--unstitch"
    requires j == i + 2 && i + 1 < |tokens| ==> tokens[i + 1] != "--stitch" && tokens[i + 1] != "--unstitch"
    requires forall k :: j <= k < |tokens| ==> tokens[k] != "--stitch" && tokens[k] != "--unstitch"
    ensures forall k :: i <= k < |tokens| ==> tokens[k] != "--stitch" && tokens[k] != "--unstitch"
  {
    forall k | i <= k < |tokens|
      ensures tokens[k] != "--stitch" && tokens[k] != "--unstitch"
    {
      if k == i {
      } else if k < j {
        assert k == i + 1;
      }
    }
  }

  /** A step that leaves the operation unset neither scanned nor consumed an exact operation switch. */
  lemma StepWithoutOperation(tokens: seq<string>, i: nat, st: ScanState)
    requires i < |tokens| && ScanStep(tokens, i, st).1.operation == ""
    ensures tokens[i] != "--stitch" && tokens[i] != "--unstitch"
    ensures ScanStep(tokens, i, st).0 == i + 2 ==> tokens[i + 1] != "--stitch" && tokens[i + 1] != "--unstitch"
  {
    SwitchesAreLowerCase();
    DashesDoNotParse();
  }

  /** The two operation switches are already in lower case. */
  lemma SwitchesAreLowerCase()
    ensures ToLower("--stitch") == "--stitch" && ToLower("--unstitch") == "--unstitch"
    ensures ToLower("--padding") == "--padding"
  {
  }

  /** Neither operation switch parses as a number. */
  lemma DashesDoNotParse()
    ensures ParseInt32("--stitch") == None && ParseInt32("--unstitch") == None
  {
    TrimNothing("--stitch", Whitespace);
    TrimNothing("--unstitch", Whitespace);
    assert "--stitch"[1..][0] == '-';
    assert "--unstitch"[1..][0] == '-';
  }

  /**
   * What an accepted attempt guarantees: the checks before the scan passed, the operation is
   * --stitch or --unstitch with a non-empty atlas name, or it is empty with no name, which happens
   * only when the directory token is itself an operation switch; the padding is a 32-bit value,
   * and 2 when no token asks for another.
   */
  lemma AcceptedAttempt(tokens: seq<string>, dirs: set<string>, pngDirs: set<string>, atlasDirs: set<string>)
    requires ParseAttempt(tokens, dirs, pngDirs, atlasDirs).Accepted?
    ensures var p := ParseAttempt(tokens, dirs, pngDirs, atlasDirs).parsed;
            && |tokens| > 0 && !IsHelp(tokens[0]) && p.inputDirectory in dirs && ExactlyOneOperation(tokens)
            && p.operation in {"", "--stitch", "--unstitch"}
            && (p.operation == "" <==> p.atlasName == "")
            && (p.operation == "" ==> tokens[0] == "--stitch" || tokens[0] == "--unstitch")
            && ((forall k :: 1 <= k < |tokens| ==> ToLower(tokens[k]) != "--padding") ==> p.padding == 2)
  {
    AcceptedParts(tokens, dirs, pngDirs, atlasDirs);
    ValidScan(tokens);
  }

  /**
   * A scan of a token list with exactly one operation switch that ends valid: its operation is a
   * switch with a name, or empty with no name only when the first token is the switch; its padding
   * is 2 unless some token is --padding.
   */
  lemma ValidScan(tokens: seq<string>)
    requires |tokens| > 0 && ExactlyOneOperation(tokens) && !ScanFrom(tokens, 1, ScanStart).invalid
    ensures var st := ScanFrom(tokens, 1, ScanStart);
            && st.operation in {"", "--stitch", "--unstitch"}
            && (st.operation == "" <==> st.atlasName == "")
            && (st.operation == "" ==> tokens[0] == "--stitch" || tokens[0] == "--unstitch")
            && ((forall k :: 1 <= k < |tokens| ==> ToLower(tokens[k]) != "--padding") ==> st.padding == 2)
  {
    var st := ScanFrom(tokens, 1, ScanStart);
    ScanKeeps(tokens, 1, ScanStart);
    if st.operation == "" {
      ScanFindsOperation(tokens, 1, ScanStart);
      var k :| 0 <= k < |tokens| && (tokens[k] == "--stitch" || tokens[k] == "--unstitch");
      assert k == 0;
    }
    if forall k :: 1 <= k < |tokens| ==> ToLower(tokens[k]) != "--padding" {
      ScanPaddingDefault(tokens, 1, ScanStart);
    }
  }

  /** An accepted attempt passed every check, and its result is the scan's. */
  lemma AcceptedParts(tokens: seq<string>, dirs: set<string>, pngDirs: set<string>, atlasDirs: set<string>)
    requires ParseAttempt(tokens, dirs, pngDirs, atlasDirs).Accepted?
    ensures |tokens| > 0 && !IsHelp(tokens[0]) && TrimQuotes(tokens[0]) in dirs && ExactlyOneOperation(tokens)
    ensures var st := ScanFrom(tokens, 1, ScanStart);
            !st.invalid && ParseAttempt(tokens, dirs, pngDirs, atlasDirs).parsed
                           == Parsed(TrimQuotes(tokens[0]), st.operation, st.padding, st.atlasName)
  {
  }

  /** Every value of padding an accepted attempt can carry is a 32-bit integer. */
  lemma {:induction false} ScanPaddingRange(tokens: seq<string>, i: nat, st: ScanState)
    requires Int32Min <= st.padding <= Int32Max
    ensures Int32Min <= ScanFrom(tokens, i, st).padding <= Int32Max
    decreases |tokens| - i
  {
    if i < |tokens| {
      var (j, next) := ScanStep(tokens, i, st);
      ScanPaddingRange(tokens, j, next);
    }
  }

  /** The scan from token i in state st reaches token k, rather than consuming it as an option's value. */
  ghost predicate Visits(tokens: seq<string>, i: nat, st: ScanState, k: nat)
    decreases |tokens| - i
  {
    i < |tokens| && (i == k || (var step := ScanStep(tokens, i, st); Visits(tokens, step.0, step.1, k)))
  }

  /** A token the scan reaches that is none of the three options marks the input invalid for good. */
  lemma {:induction false} UnknownOptionInvalidates(tokens: seq<string>, i: nat, st: ScanState, k: nat)
    requires k < |tokens| && Visits(tokens, i, st, k)
    requires ToLower(tokens[k]) !in {"--stitch", "--unstitch", "--padding"}
    ensures ScanFrom(tokens, i, st).invalid
    decreases |tokens| - i
  {
    var step := ScanStep(tokens, i, st);
    ScanFromStep(tokens, i, st);
    if i != k {
      UnknownOptionInvalidates(tokens, step.0, step.1, k);
    }
  }

  /**
   * Once the checks before the scan pass, a token the scan reaches that is not an option rejects
   * the attempt with InvalidArguments, whatever comes before or after it.
   */
  lemma UnknownOptionRejected(tokens: seq<string>, dirs: set<string>, pngDirs: set<string>, atlasDirs: set<string>,
                              k: nat)
    requires |tokens| > 0 && !IsHelp(tokens[0]) && TrimQuotes(tokens[0]) in dirs && ExactlyOneOperation(tokens)
    requires k < |tokens| && Visits(tokens, 1, ScanStart, k)
    requires ToLower(tokens[k]) !in {"--stitch", "--unstitch", "--padding"}
    ensures ParseAttempt(tokens, dirs, pngDirs, atlasDirs) == Rejected(InvalidArguments)
  {
    UnknownOptionInvalidates(tokens, 1, ScanStart, k);
    ChecksPassed(tokens, dirs, pngDirs, atlasDirs);
  }

  /** The help test ignores case: a token is a help request exactly when its lower-case form is. */
  lemma HelpIgnoresCase(token: string)
    ensures IsHelp(token) <==> IsHelp(ToLower(token))
  {
    assert ToLower(ToLower(token)) == ToLower(token);
  }

  /** The presence check passes exactly when the operation switches among the tokens are all the same one. */
  lemma OneOperationSwitch(tokens: seq<string>)
    ensures ExactlyOneOperation(tokens) <==>
              exists k :: 0 <= k < |tokens| && tokens[k] in {"--stitch", "--unstitch"}
                && forall j :: 0 <= j < |tokens| && tokens[j] in {"--stitch", "--unstitch"} ==> tokens[j] == tokens[k]
  {
    if ExactlyOneOperation(tokens) {
      var op := if "--stitch" in tokens then "--stitch" else "--unstitch";
      var k :| 0 <= k < |tokens| && tokens[k] == op;
      assert forall j :: 0 <= j < |tokens| && tokens[j] in {"--stitch", "--unstitch"} ==> tokens[j] == tokens[k];
    }
  }

  /** The post-scan switch never matches: what it would check cannot change the outcome. */
  lemma DeadSwitch(tokens: seq<string>, dirs: set<string>, pngDirs: set<string>, atlasDirs: set<string>,
                   otherPngDirs: set<string>, otherAtlasDirs: set<string>)
    ensures ParseAttempt(tokens, dirs, pngDirs, atlasDirs) == ParseAttempt(tokens, dirs, otherPngDirs, otherAtlasDirs)
    ensures ParseAttempt(tokens, dirs, pngDirs, atlasDirs).Rejected? ==>
              ParseAttempt(tokens, dirs, pngDirs, atlasDirs).rejection !in {NoPngFiles, NoAtlasFound}
  {
    if |tokens| > 0 {
      ScanKeeps(tokens, 1, ScanStart);
    }
  }

  // ---------------------------------------------------------------------------------------------
  // Worked token lists

  lemma StitchExample()
    ensures ParseAttempt(["sprites", "--stitch", "atlas.png", "--padding", "4"], {"sprites"}, {}, {})
         == Accepted(Parsed("sprites", "--stitch", 4, "atlas.png"))
  {
    var tokens := ["sprites", "--stitch", "atlas.png", "--padding", "4"];
    var st := ScanState("--stitch", 4, "atlas.png", false);
    TrimNothing("sprites", {'"'});
    TrimNothing("atlas.png", {'"'});
    assert ToLower("sprites")[0] == 's';
    ParseOneDigit('4');
    SwitchThenPadding(tokens, 1, ScanStart);
    assert ScanFrom(tokens, 5, st) == st;
    ChecksPassed(tokens, {"sprites"}, {}, {});
  }

  /** A later option overwrites an earlier one, and the quotes around a name are removed. */
  lemma OverwriteExample()
    ensures ParseAttempt(["d", "--stitch", "a.png", "--padding", "4", "--stitch", "\"b.png\"", "--padding", "7"],
                         {"d"}, {}, {})
         == Accepted(Parsed("d", "--stitch", 7, "b.png"))
  {
    var tokens := ["d", "--stitch", "a.png", "--padding", "4", "--stitch", "\"b.png\"", "--padding", "7"];
    TrimNothing("a.png", {'"'});
    QuotedName();
    ParseOneDigit('4');
    ParseOneDigit('7');
    LaterOptionsOverwrite(tokens, 1, ScanStart);
    assert ScanFrom(tokens, 9, ScanState("--stitch", 7, "b.png", false)) == ScanState("--stitch", 7, "b.png", false);
    PlainD();
    ChecksPassed(tokens, {"d"}, {}, {});
  }

  /**
   * Two rounds of a switch with its name and --padding with a number: the second round's values
   * replace the first round's, whatever those were.
   */
  lemma LaterOptionsOverwrite(tokens: seq<string>, i: nat, st: ScanState)
    requires i + 7 < |tokens| && tokens[i] in {"--stitch", "--unstitch"} && tokens[i + 4] in {"--stitch", "--unstitch"}
    requires tokens[i + 2] == "--padding" && tokens[i + 6] == "--padding"
    requires TrimQuotes(tokens[i + 1]) != "" && TrimQuotes(tokens[i + 5]) != ""
    requires ParseInt32(tokens[i + 3]).Some? && ParseInt32(tokens[i + 7]).Some?
    ensures ScanFrom(tokens, i, st)
         == ScanFrom(tokens, i + 8, st.(operation := tokens[i + 4], atlasName := TrimQuotes(tokens[i + 5]),
                                        padding := ParseInt32(tokens[i + 7]).value))
  {
    var mid := st.(operation := tokens[i], atlasName := TrimQuotes(tokens[i + 1]), padding := ParseInt32(tokens[i + 3]).value);
    SwitchThenPadding(tokens, i, st);
    SwitchThenPadding(tokens, i + 4, mid);
  }

  /** A switch with its name, then --padding with a number: both are taken, and nothing is invalid. */
  lemma SwitchThenPadding(tokens: seq<string>, i: nat, st: ScanState)
    requires i + 3 < |tokens| && tokens[i] in {"--stitch", "--unstitch"} && TrimQuotes(tokens[i + 1]) != ""
    requires tokens[i + 2] == "--padding" && ParseInt32(tokens[i + 3]).Some?
    ensures ScanFrom(tokens, i, st)
         == ScanFrom(tokens, i + 4, st.(operation := tokens[i], atlasName := TrimQuotes(tokens[i + 1]),
                                        padding := ParseInt32(tokens[i + 3]).value))
  {
    var mid := st.(operation := tokens[i], atlasName := TrimQuotes(tokens[i + 1]));
    ScanSwitch(tokens, i, st);
    ScanPadding(tokens, i + 2, mid);
  }

  /** An operation switch in lower case takes the next token, unquoted, as the atlas name. */
  lemma ScanSwitch(tokens: seq<string>, i: nat, st: ScanState)
    requires i + 1 < |tokens| && tokens[i] in {"--stitch", "--unstitch"}
    ensures var name := TrimQuotes(tokens[i + 1]);
            ScanFrom(tokens, i, st) == ScanFrom(tokens, i + 2, st.(operation := tokens[i], atlasName := name,
                                                                   invalid := st.invalid || name == ""))
  {
    SwitchesAreLowerCase();
    ScanFromStep(tokens, i, st);
  }

  /** --padding followed by a number sets the padding to it. */
  lemma ScanPadding(tokens: seq<string>, i: nat, st: ScanState)
    requires i + 1 < |tokens| && tokens[i] == "--padding" && ParseInt32(tokens[i + 1]).Some?
    ensures ScanFrom(tokens, i, st) == ScanFrom(tokens, i + 2, st.(padding := ParseInt32(tokens[i + 1]).value))
  {
    SwitchesAreLowerCase();
    assert ScanStep(tokens, i, st) == PaddingStep(tokens, i, st);
    ScanFromStep(tokens, i, st);
  }

  /** With the checks before the scan passed, an attempt ends as its scan does. */
  lemma ChecksPassed(tokens: seq<string>, dirs: set<string>, pngDirs: set<string>, atlasDirs: set<string>)
    requires |tokens| > 0 && !IsHelp(tokens[0]) && TrimQuotes(tokens[0]) in dirs && ExactlyOneOperation(tokens)
    ensures ParseAttempt(tokens, dirs, pngDirs, atlasDirs)
         == Conclude(TrimQuotes(tokens[0]), ScanFrom(tokens, 1, ScanStart), pngDirs, atlasDirs)
  {
  }

  /** "d" is a plain directory token: no quotes to trim, and not a request for help. */
  lemma PlainD()
    ensures TrimQuotes("d") == "d" && !IsHelp("d")
  {
    TrimNothing("d", {'"'});
    assert ToLower("d")[0] == 'd';
  }

  /** Trim('"') takes the quotes off a quoted name. */
  lemma QuotedName()
    ensures TrimQuotes("\"b.png\"") == "b.png"
  {
    var s := "\"b.png\"";
    assert SkipLeading(s, {'"'}, 1) == 1;
    assert SkipLeading(s, {'"'}, 0) == 1;
    assert SkipTrailing(s, {'"'}, 1, 6) == 6;
    assert SkipTrailing(s, {'"'}, 1, 7) == 6;
    assert s[1..6] == "b.png";
  }

  /** A single digit parses to its value. */
  lemma ParseOneDigit(c: char)
    requires IsDigit(c)
    ensures ParseInt32([c]) == Some(c as int - '0' as int)
  {
    TrimNothing([c], Whitespace);
    assert [c][..0] == "";
    assert AllDigits([c]);
    assert DigitsValue([c]) == c as int - '0' as int;
    assert ParseDigitString([c]) == Some(c as int - '0' as int);
  }

  /** A token after the atlas name that is not an option makes the input invalid. */
  lemma ExtraTokenExample()
    ensures ParseAttempt(["d", "--unstitch", "a.png", "extra"], {"d"}, {}, {}) == Rejected(InvalidArguments)
  {
    TrimNothing("d", {'"'});
    TrimNothing("a.png", {'"'});
    assert ToLower("--unstitch") == "--unstitch";
    assert ToLower("extra")[0] == 'e';
    assert ToLower("d")[0] == 'd';
  }

  /** The presence test is case-sensitive: an upper-case switch alone is refused. */
  lemma UpperCaseSwitchAlone()
    ensures ParseAttempt(["d", "--STITCH", "a.png"], {"d"}, {}, {}) == Rejected(NoOperation)
  {
    TrimNothing("d", {'"'});
    assert ToLower("d")[0] == 'd';
    assert "--STITCH" != "--stitch" && "--STITCH" != "--unstitch";
  }

  /**
   * The scan lower-cases: beside a lower-case switch, an upper-case one that comes last is the one
   * the scan keeps.
   */
  lemma UpperCaseSwitchLast()
    ensures ParseAttempt(["d", "--stitch", "a.png", "--UNSTITCH", "b.png"], {"d"}, {}, {})
         == Accepted(Parsed("d", "--unstitch", 2, "b.png"))
  {
    var tokens := ["d", "--stitch", "a.png", "--UNSTITCH", "b.png"];
    TrimNothing("a.png", {'"'});
    TrimNothing("b.png", {'"'});
    assert ToLower("--UNSTITCH") == "--unstitch";
    assert "--UNSTITCH" != "--unstitch";
    var s1 := ScanState("--stitch", 2, "a.png", false);
    var s2 := ScanState("--unstitch", 2, "b.png", false);
    ScanSwitch(tokens, 1, ScanStart);
    assert ScanStep(tokens, 3, s1) == (5, s2);
    ScanFromStep(tokens, 3, s1);
    assert ScanFrom(tokens, 5, s2) == s2;
    PlainD();
    ChecksPassed(tokens, {"d"}, {}, {});
  }

  /** A directory named --stitch with nothing after it is accepted with an empty operation. */
  lemma EmptyOperationExample()
    ensures ParseAttempt(["--stitch"], {"--stitch"}, {}, {}) == Accepted(Parsed("--stitch", "", 2, ""))
  {
    TrimNothing("--stitch", {'"'});
    assert ToLower("--stitch") == "--stitch";
  }

  /** With no arguments, blank and help lines are skipped until a line is accepted. */
  lemma RepromptExample()
    ensures FirstAccepted(Attempts([], [None, Some("  "), Some("help"), Some("d --unstitch a.png")]), {"d"}, {}, {})
         == Some(Parsed("d", "--unstitch", 2, "a.png"))
  {
    var command := ["d", "--unstitch", "a.png"];
    RepromptAttempts();
    HelpRejected();
    CommandAccepted();
    FirstAcceptedCons([], [[], ["help"], command], {"d"}, {}, {});
    FirstAcceptedCons([], [["help"], command], {"d"}, {}, {});
    FirstAcceptedCons(["help"], [command], {"d"}, {}, {});
    FirstAcceptedCons(command, [], {"d"}, {}, {});
  }

  lemma HelpRejected()
    ensures ParseAttempt(["help"], {"d"}, {}, {}) == Rejected(HelpShown)
  {
    assert ToLower("help") == "help";
  }

  lemma CommandAccepted()
    ensures ParseAttempt(["d", "--unstitch", "a.png"], {"d"}, {}, {}) == Accepted(Parsed("d", "--unstitch", 2, "a.png"))
  {
    var command := ["d", "--unstitch", "a.png"];
    TrimNothing("d", {'"'});
    TrimNothing("a.png", {'"'});
    SwitchesAreLowerCase();
    assert ToLower("d")[0] == 'd';
    var s1 := ScanState("--unstitch", 2, "a.png", false);
    assert ScanStep(command, 1, ScanStart) == (3, s1);
    assert ScanFrom(command, 3, s1) == s1;
  }

  lemma RepromptAttempts()
    ensures Attempts([], [None, Some("  "), Some("help"), Some("d --unstitch a.png")])
         == [[], [], ["help"], ["d", "--unstitch", "a.png"]]
  {
    var lines := [None, Some("  "), Some("help"), Some("d --unstitch a.png")];
    BlankLines();
    HelpLine();
    CommandLine();
    var attempts := Attempts([], lines);
    assert |attempts| == 4;
    assert attempts[0] == Tokenize(lines[0]) && attempts[1] == Tokenize(lines[1]);
    assert attempts[2] == Tokenize(lines[2]) && attempts[3] == Tokenize(lines[3]);
  }

  /** A null line and a line of spaces give no tokens. */
  lemma BlankLines()
    ensures Tokenize(None) == [] && Tokenize(Some("  ")) == []
  {
    assert Trim("", TrimWhitespace) == "";
    assert SkipLeading("  ", TrimWhitespace, 2) == 2;
    assert SkipLeading("  ", TrimWhitespace, 0) == 2;
    assert Trim("  ", TrimWhitespace) == "";
  }

  /** Trimming removes every white-space character, such as a no-break space after the last word. */
  lemma NoBreakSpaceLine()
    ensures Tokenize(Some("a.png\U{A0}")) == ["a.png"]
  {
    assert "a.png\U{A0}" == "a.png" + ['\U{A0}'];
    TrimTrailingSpace("a.png", '\U{A0}');
    SplitOneWord("a.png");
  }

  /** A word followed by one white-space character trims to the word. */
  lemma TrimTrailingSpace(w: string, c: char)
    requires |w| > 0 && w[0] !in TrimWhitespace && w[|w| - 1] !in TrimWhitespace && c in TrimWhitespace
    ensures Trim(w + [c], TrimWhitespace) == w
  {
    var line := w + [c];
    assert SkipLeading(line, TrimWhitespace, 0) == 0;
    assert SkipTrailing(line, TrimWhitespace, 0, |w|) == |w|;
    assert line[..|w|] == w;
  }

  lemma HelpLine()
    ensures Tokenize(Some("help")) == ["help"]
  {
    TrimNothing("help", TrimWhitespace);
    SplitOneWord("help");
  }

  lemma CommandLine()
    ensures Tokenize(Some("d --unstitch a.png")) == ["d", "--unstitch", "a.png"]
  {
    TrimNothing("d --unstitch a.png", TrimWhitespace);
    CommandTokens("d --unstitch a.png");
  }

  /** The three words of a command line, with s a variable so that its slices are not unfolded eagerly. */
  lemma CommandTokens(s: string)
    requires s == "d --unstitch a.png"
    ensures SplitOnSpace(s) == ["d", "--unstitch", "a.png"]
  {
    assert s[..1] == "d" && s[1] == ' ' && ' ' !in "d";
    assert s[1..][1..] == s[2..];
    OptionTokens(s[2..]);
    SplitLeadingSpace(s[1..]);
    SplitWordAt(s, 1);
  }

  lemma OptionTokens(s: string)
    requires s == "--unstitch a.png"
    ensures SplitOnSpace(s) == ["--unstitch", "a.png"]
  {
    assert s[..10] == "--unstitch" && s[10] == ' ' && ' ' !in "--unstitch";
    assert s[10..][1..] == "a.png";
    SplitOneWord("a.png");
    SplitLeadingSpace(s[10..]);
    SplitWordAt(s, 10);
  }

  /** A leading space is skipped. */
  lemma SplitLeadingSpace(s: string)
    requires |s| > 0 && s[0] == ' '
    ensures SplitOnSpace(s) == SplitOnSpace(s[1..])
  {
  }

  /** A word that ends at a space is the first token. */
  lemma SplitWordAt(s: string, n: nat)
    requires 0 < n < |s| && s[n] == ' ' && ' ' !in s[..n]
    ensures SplitOnSpace(s) == [s[..n]] + SplitOnSpace(s[n..])
  {
    WordEndsAtSpace(s, n);
    assert s[0] == s[..n][0];
  }

  /** The word at the front of s ends at its first space. */
  lemma WordEndsAtSpace(s: string, n: nat)
    requires n < |s| && s[n] == ' ' && ' ' !in s[..n]
    ensures Word(s) == s[..n]
  {
    var w := Word(s);
    assert forall k :: 0 <= k < n ==> s[k] == s[..n][k] && s[k] != ' ';
    assert forall k :: 0 <= k < |w| ==> w[k] == s[k] && w[k] != ' ';
    assert |w| == n;
  }
}
