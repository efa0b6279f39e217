/**
 * Forwarding an error message to the Cray event router (nvidia-geforce-340.107/nv-cray.c).
 *
 * The function does not print.  It scans a printf format, takes the arguments the directives name, cuts
 * them into 32-bit words and packs the words, two to a register, into at most six registers.
 *
 * Three descriptions meet here: the loop of the source over characters and an array, the same scan over
 * values (`Scan`), and an interpreter of formats already parsed into pieces (`Interpret`), which knows no
 * states.  The pieces follow the directive grammar of section 7.19.6.1 of ISO/IEC 9899:1999.
 */
module CrayFormat {

  const TWO_32: nat := 0x1_0000_0000
  const TWO_64: nat := 0x1_0000_0000_0000_0000
  const MAX_MMRS: nat := 6

  type U32 = x: nat | x < TWO_32
  type U64 = x: nat | x < TWO_64

  datatype State = Ordinary | Introduction | Flags | FieldWidth | Precision | LengthModifier | Conversion

  datatype Modifier = NoModifier | CharMod | ShortMod | LongMod | LongLongMod

  datatype Error = InvalidArgument | InsufficientResources

  /** The scan so far: what the source keeps in its local variables, with the words still in a row. */
  datatype Scanner =
    | Running(state: State, modifier: Modifier, taken: nat, words: seq<U32>)
    | Stopped(error: Error)

  /** What the caller and the router see; `Silent` is a success that has nothing to report. */
  datatype Outcome = Silent | Reported(mmrs: seq<U64>) | Failed(error: Error)

  predicate IsFlag(c: char) {
    c == '#' || c == '0' || c == '-' || c == ' ' || c == '+'
  }

  predicate IsLengthModifier(c: char) {
    c == 'h' || c == 'l' || c == 'L' || c == 'q' || c == 'j' || c == 'z' || c == 't'
  }

  predicate IsConversion(c: char) {
    || c == 'd' || c == 'i' || c == 'o' || c == 'u' || c == 'x' || c == 'X'
    || c == 'e' || c == 'E' || c == 'f' || c == 'F' || c == 'g' || c == 'G'
    || c == 'a' || c == 'A' || c == 'c' || c == 's' || c == 'p'
  }

  predicate IsDigit(c: char) {
    '0' <= c <= '9'
  }

  predicate IsSigned(c: char) {
    c == 'c' || c == 'd' || c == 'i'
  }

  predicate IsUnsigned(c: char) {
    c == 'o' || c == 'u' || c == 'x' || c == 'X'
  }

  // ---------------------------------------------------------------------------------------------------
  // The scan over values
  // ---------------------------------------------------------------------------------------------------

  /** The last case of the first switch; what matches nothing leaves the state as it was. */
  function AfterPrecision(state: State, c: char): State {
    if c == 'h' || c == 'l' then LengthModifier
    else if IsConversion(c) then Conversion
    else state
  }

  function InPrecision(state: State, c: char): State {
    if IsDigit(c) then Precision
    else if IsLengthModifier(c) then LengthModifier
    else if IsConversion(c) then Conversion
    else AfterPrecision(state, c)
  }

  function InWidth(state: State, c: char): State {
    if IsDigit(c) then FieldWidth
    else if c == '.' then Precision
    else InPrecision(state, c)
  }

  function InFlags(state: State, c: char): State {
    if IsFlag(c) then Flags
    else if c == '*' then FieldWidth
    else InWidth(state, c)
  }

  /** The first switch.  Each case of a directive falls through to the next one. */
  function NextState(state: State, c: char): State {
    match state
    case Ordinary => if c == '%' then Introduction else Ordinary
    case Introduction => if c == '%' then Ordinary else InFlags(state, c)
    case Flags => InFlags(state, c)
    case FieldWidth => InWidth(state, c)
    case Precision => InPrecision(state, c)
    case LengthModifier => AfterPrecision(state, c)
    case Conversion => Conversion
  }

  /** `h` after anything means char, `l` after anything means long long. */
  function NextModifier(modifier: Modifier, c: char): Modifier
    requires c == 'h' || c == 'l'
  {
    if c == 'h' then
      if modifier == NoModifier then ShortMod else CharMod
    else
      if modifier == NoModifier then LongMod else LongLongMod
  }

  /** The value a conversion reads from its argument slot: c, d and i always read an int. */
  function Fetched(modifier: Modifier, c: char, slot: U64): U64 {
    if IsUnsigned(c) && (modifier == LongMod || modifier == LongLongMod) then slot else slot % TWO_32
  }

  /** The 32-bit words a conversion emits, low half first. */
  function Emitted(modifier: Modifier, c: char, slot: U64): seq<U32> {
    var x := Fetched(modifier, c, slot);
    if modifier == LongLongMod then [x % TWO_32, x / TWO_32] else [x % TWO_32]
  }

  function Convert(modifier: Modifier, taken: nat, words: seq<U32>, c: char, args: nat -> U64): Scanner {
    if !IsSigned(c) && !IsUnsigned(c) then Stopped(InvalidArgument)
    else
      var emitted := Emitted(modifier, c, args(taken));
      if |words| + |emitted| > 2 * MAX_MMRS then Stopped(InsufficientResources)
      else Running(Ordinary, modifier, taken + 1, words + emitted)
  }

  function Step(s: Scanner, c: char, args: nat -> U64): Scanner
    requires s.Running?
  {
    var state := NextState(s.state, c);
    match state
    case Introduction => s.(state := state, modifier := NoModifier)
    case LengthModifier =>
      if c == 'h' || c == 'l'
      then s.(state := state, modifier := NextModifier(s.modifier, c))
      else Stopped(InvalidArgument)
    case Conversion => Convert(s.modifier, s.taken, s.words, c, args)
    case _ => s.(state := state)
  }

  function Scan(s: Scanner, format: string, args: nat -> U64): Scanner
    decreases format
  {
    if s.Stopped? || format == "" then s else Scan(Step(s, format[0], args), format[1..], args)
  }

  lemma {:induction false} ScanSplit(s: Scanner, a: string, b: string, args: nat -> U64)
    ensures Scan(s, a + b, args) == Scan(Scan(s, a, args), b, args)
    decreases a
  {
    if a == "" {
      assert a + b == b;
    } else if s.Running? {
      assert (a + b)[1..] == a[1..] + b;
      ScanSplit(Step(s, a[0], args), a[1..], b, args);
    }
  }

  function Start(): Scanner {
    Running(Ordinary, NoModifier, 0, [])
  }

  /** The registers for a row of words: the earlier word of a pair is the high half, a lone last word low. */
  function Pack(words: seq<U32>): seq<U64> {
    seq((|words| + 1) / 2, k requires 0 <= k < (|words| + 1) / 2 =>
      if 2 * k + 1 < |words| then words[2 * k] * TWO_32 + words[2 * k + 1] else words[2 * k])
  }

  function Report(s: Scanner): Outcome {
    match s
    case Stopped(error) => Failed(error)
    case Running(_, _, _, words) => if words == [] then Silent else Reported(Pack(words))
  }

  // ---------------------------------------------------------------------------------------------------
  // The loop of the source
  // ---------------------------------------------------------------------------------------------------

  /** The array, its index and its half index hold exactly the packed words. */
  ghost predicate Holds(mmrs: seq<U64>, m: nat, n: nat, words: seq<U32>) {
    && |mmrs| == MAX_MMRS
    && n < 2 && 2 * m + n == |words| <= 2 * MAX_MMRS
    && (forall k :: 0 <= k < (|words| + 1) / 2 ==> mmrs[k] == Pack(words)[k])
    && (forall k :: (|words| + 1) / 2 <= k < MAX_MMRS ==> mmrs[k] == 0)
  }

  /** Shifting the register left by one half and adding the word stores it. */
  lemma StoredWord(mmrs: seq<U64>, m: nat, n: nat, words: seq<U32>, w: U32)
    requires Holds(mmrs, m, n, words) && m < MAX_MMRS
    ensures mmrs[m] == if n == 0 then 0 else words[|words| - 1]
    ensures Holds(mmrs[m := mmrs[m] * TWO_32 % TWO_64 + w], (if n == 1 then m + 1 else m), 1 - n, words + [w])
  {
    var more := words + [w];
    assert Pack(more)[m] == mmrs[m] * TWO_32 + w by {
      if n == 1 {
        assert mmrs[m] == Pack(words)[m] == words[2 * m];
      }
    }
    assert mmrs[m] < TWO_32;
    forall k | 0 <= k < m
      ensures Pack(more)[k] == Pack(words)[k]
    {
    }
  }

  /** The inner loop: store the low word of `x`, then the next one, until done or out of registers. */
  method StoreWords(mmrs: array<U64>, m0: nat, n0: nat, x0: U64, times: nat, ghost words: seq<U32>)
    returns (full: bool, m: nat, n: nat)
    requires Holds(mmrs[..], m0, n0, words)
    requires 1 <= times <= 2
    modifies mmrs
    ensures full <==> |words| + times > 2 * MAX_MMRS
    ensures !full ==> Holds(mmrs[..], m, n, words + [x0 % TWO_32, x0 / TWO_32][..times])
  {
    full, m, n := false, m0, n0;
    var x: U64 := x0;
    ghost var emitted: seq<U32> := [x0 % TWO_32, x0 / TWO_32];
    ghost var stored := words;
    for i := 0 to times
      invariant stored == words + emitted[..i]
      invariant Holds(mmrs[..], m, n, stored)
      invariant x == if i == 0 then x0 else if i == 1 then x0 / TWO_32 else 0
    {
      if m == MAX_MMRS {
        return true, m, n;
      }
      StoredWord(mmrs[..], m, n, stored, x % TWO_32);
      assert emitted[..i + 1] == emitted[..i] + [x % TWO_32];
      mmrs[m] := mmrs[m] * TWO_32 % TWO_64 + x % TWO_32;
      stored := stored + [x % TWO_32];
      x := x / TWO_32;
      n := n + 1;
      if n == 2 {
        m := m + 1;
        n := 0;
      }
    }
  }

  /** The loop over characters and an array does what the scan over values says. */
  method ForwardErrorToCray(format: string, args: nat -> U64) returns (r: Outcome)
    ensures r == Report(Scan(Start(), format, args))
  {
    var infoMmrs := new U64[MAX_MMRS](_ => 0);
    var x: U64 := 0;
    var state, modifier := Ordinary, NoModifier;
    var n: nat, m: nat, taken: nat, pos := 0, 0, 0, 0;
    ghost var words: seq<U32> := [];
    assert format[0..] == format;
    while pos < |format|
      invariant pos <= |format|
      invariant infoMmrs.Length == MAX_MMRS && Holds(infoMmrs[..], m, n, words)
      invariant Scan(Start(), format, args)
             == Scan(Running(state, modifier, taken, words), format[pos..], args)
    {
      var c := format[pos];
      assert format[pos..][1..] == format[pos + 1..];
      state := NextState(state, c);
      match state {
        case Introduction =>
          modifier := NoModifier;
        case LengthModifier =>
          match c {
            case 'h' => modifier := if modifier == NoModifier then ShortMod else CharMod;
            case 'l' => modifier := if modifier == NoModifier then LongMod else LongLongMod;
            case _ => return Failed(InvalidArgument);
          }
        case Conversion =>
          match c {
            case 'c' | 'd' | 'i' =>
              x := args(taken) % TWO_32;
            case 'o' | 'u' | 'x' | 'X' =>
              match modifier {
                case LongLongMod => x := args(taken);
                case LongMod => x := args(taken);
                case _ => x := args(taken) % TWO_32;
              }
            case _ => return Failed(InvalidArgument);
          }
          assert x == Fetched(modifier, c, args(taken));
          state := Ordinary;
          var times := if modifier == LongLongMod then 2 else 1;
          var full: bool;
          full, m, n := StoreWords(infoMmrs, m, n, x, times, words);
          assert Emitted(modifier, c, args(taken)) == [x % TWO_32, x / TWO_32][..times];
          if full {
            return Failed(InsufficientResources);
          }
          words := words + Emitted(modifier, c, args(taken));
          taken := taken + 1;
        case _ =>
      }
      pos := pos + 1;
    }
    var numInfoMmrs := m + (if n != 0 then 1 else 0);
    if numInfoMmrs > 0 {
      assert infoMmrs[..numInfoMmrs] == Pack(words);
      return Reported(infoMmrs[..numInfoMmrs]);
    }
    return Silent;
  }

  // ---------------------------------------------------------------------------------------------------
  // Formats in pieces
  // ---------------------------------------------------------------------------------------------------

  datatype Length = NoLength | H | HH | L | LL | OtherLength(letter: char)

  datatype Piece =
    | Literal(c: char)
    | Percent
    | Directive(flags: string, width: string, precision: string, length: Length, conv: char)

  predicate AllDigits(t: string) {
    forall k :: 0 <= k < |t| ==> IsDigit(t[k])
  }

  predicate AllFlags(t: string) {
    forall k :: 0 <= k < |t| ==> IsFlag(t[k])
  }

  /** Digits, or a star, which stands for a number taken from the arguments. */
  predicate IsNumber(t: string) {
    AllDigits(t) || t == "*"
  }

  /** The directive grammar, every length letter and conversion the source knows by name included. */
  predicate WellFormed(p: Piece) {
    match p
    case Literal(c) => c != '%'
    case Percent => true
    case Directive(flags, width, precision, length, conv) =>
      && AllFlags(flags) && IsNumber(width)
      && (precision == "" || (precision[0] == '.' && IsNumber(precision[1..])))
      && (length.OtherLength? ==> length.letter in "Lqjzt")
      && IsConversion(conv)
  }

  function LengthText(length: Length): string {
    match length
    case NoLength => ""
    case H => "h"
    case HH => "hh"
    case L => "l"
    case LL => "ll"
    case OtherLength(letter) => [letter]
  }

  function Text(p: Piece): string {
    match p
    case Literal(c) => [c]
    case Percent => "%%"
    case Directive(flags, width, precision, length, conv) =>
      "%" + (flags + width) + (precision + (LengthText(length) + [conv]))
  }

  function Render(ps: seq<Piece>): string {
    if ps == [] then "" else Text(ps[0]) + Render(ps[1..])
  }

  predicate Supported(p: Piece) {
    p.Directive? ==> !p.length.OtherLength? && (IsSigned(p.conv) || IsUnsigned(p.conv))
  }

  /** What one supported directive makes of its argument. */
  function DirectiveWords(length: Length, conv: char, slot: U64): seq<U32> {
    if length == LL
    then [slot % TWO_32, if IsSigned(conv) then 0 else slot / TWO_32]
    else [slot % TWO_32]
  }

  datatype Effect = Done(taken: nat, words: seq<U32>) | Halted(error: Error)

  /** The meaning of a format in pieces: one argument a directive, the first failing directive decides. */
  function Interpret(ps: seq<Piece>, args: nat -> U64, taken: nat, words: seq<U32>): Effect {
    if ps == [] then Done(taken, words)
    else if !ps[0].Directive? then Interpret(ps[1..], args, taken, words)
    else if !Supported(ps[0]) then Halted(InvalidArgument)
    else
      var more := DirectiveWords(ps[0].length, ps[0].conv, args(taken));
      if |words| + |more| > 2 * MAX_MMRS then Halted(InsufficientResources)
      else Interpret(ps[1..], args, taken + 1, words + more)
  }

  // ---------------------------------------------------------------------------------------------------
  // The scan of a rendered format is its interpretation
  // ---------------------------------------------------------------------------------------------------

  /** Inside a directive, before any precision, with nothing taken or emitted since the percent sign. */
  predicate Early(s: Scanner, taken: nat, words: seq<U32>) {
    && s.Running? && s.modifier == NoModifier && s.taken == taken && s.words == words
    && (s.state == Introduction || s.state == Flags || s.state == FieldWidth)
  }

  /** Inside a directive, where a length modifier or a conversion may follow. */
  predicate Open(s: Scanner, taken: nat, words: seq<U32>) {
    && s.Running? && s.modifier == NoModifier && s.taken == taken && s.words == words
    && (s.state == Precision || Early(s, taken, words))
  }

  /** Flags, digits and stars, in any order, do not leave the early part, and a star takes nothing. */
  lemma {:induction false} StaysEarly(s: Scanner, t: string, args: nat -> U64, taken: nat, words: seq<U32>)
    requires Early(s, taken, words)
    requires forall k :: 0 <= k < |t| ==> IsFlag(t[k]) || IsDigit(t[k]) || t[k] == '*'
    ensures Early(Scan(s, t, args), taken, words)
    decreases t
  {
    if t != "" {
      StaysEarly(Step(s, t[0], args), t[1..], args, taken, words);
    }
  }

  lemma {:induction false} NumberStaysInPrecision(s: Scanner, t: string, args: nat -> U64)
    requires s.Running? && s.state == Precision && forall k :: 0 <= k < |t| ==> IsDigit(t[k]) || t[k] == '*'
    ensures Scan(s, t, args) == s
    decreases t
  {
    if t != "" {
      NumberStaysInPrecision(Step(s, t[0], args), t[1..], args);
    }
  }

  lemma PrecisionScanned(s: Scanner, precision: string, args: nat -> U64, taken: nat, words: seq<U32>)
    requires Early(s, taken, words)
    requires precision == "" || (precision[0] == '.' && IsNumber(precision[1..]))
    ensures Open(Scan(s, precision, args), taken, words)
  {
    if precision != "" {
      NumberStaysInPrecision(Step(s, '.', args), precision[1..], args);
    }
  }

  function ModifierOf(length: Length): Modifier {
    match length
    case H => ShortMod
    case HH => CharMod
    case L => LongMod
    case LL => LongLongMod
    case _ => NoModifier
  }

  lemma ConversionScanned(s: Scanner, conv: char, args: nat -> U64)
    requires s.Running? && s.state != Ordinary && s.state != Conversion && IsConversion(conv)
    ensures Scan(s, [conv], args) == Convert(s.modifier, s.taken, s.words, conv, args)
  {
    assert NextState(s.state, conv) == Conversion;
    assert Scan(Step(s, conv, args), "", args) == Step(s, conv, args);
  }

  /** After the length letters only the modifier has changed. */
  lemma LengthScanned(s: Scanner, length: Length, args: nat -> U64, taken: nat, words: seq<U32>)
    requires Open(s, taken, words) && !length.OtherLength?
    ensures var r := Scan(s, LengthText(length), args);
            && r.Running? && r.state != Ordinary && r.state != Conversion
            && r.modifier == ModifierOf(length) && r.taken == taken && r.words == words
  {
    var t := LengthText(length);
    if |t| > 0 {
      var one := Step(s, t[0], args);
      if |t| == 2 {
        assert t[1..] == [t[1]];
        assert Scan(one, t[1..], args) == Scan(Step(one, t[1], args), t[1..][1..], args);
      }
    }
  }

  /** From the end of the precision on, a directive is its length and its conversion. */
  lemma TailScanned(s: Scanner, length: Length, conv: char, args: nat -> U64, taken: nat, words: seq<U32>)
    requires Open(s, taken, words) && IsConversion(conv)
    requires length.OtherLength? ==> length.letter in "Lqjzt"
    ensures Scan(s, LengthText(length) + [conv], args)
         == if length.OtherLength? then Stopped(InvalidArgument)
            else Convert(ModifierOf(length), taken, words, conv, args)
  {
    ScanSplit(s, LengthText(length), [conv], args);
    if length.OtherLength? {
      assert NextState(s.state, length.letter) == LengthModifier;
    } else {
      LengthScanned(s, length, args, taken, words);
      ConversionScanned(Scan(s, LengthText(length), args), conv, args);
    }
  }

  lemma DirectiveScanned(p: Piece, modifier: Modifier, taken: nat, words: seq<U32>, args: nat -> U64)
    requires p.Directive? && WellFormed(p)
    ensures Scan(Running(Ordinary, modifier, taken, words), Text(p), args)
         == if p.length.OtherLength? then Stopped(InvalidArgument)
            else Convert(ModifierOf(p.length), taken, words, p.conv, args)
  {
    var s := Running(Ordinary, modifier, taken, words);
    var tail := LengthText(p.length) + [p.conv];
    var head := "%" + (p.flags + p.width);
    ScanSplit(s, head, p.precision + tail, args);
    assert head[1..] == p.flags + p.width;
    var intro := Step(s, '%', args);
    StaysEarly(intro, p.flags + p.width, args, taken, words);
    var early := Scan(s, head, args);
    assert early == Scan(intro, p.flags + p.width, args);
    ScanSplit(early, p.precision, tail, args);
    PrecisionScanned(early, p.precision, args, taken, words);
    TailScanned(Scan(early, p.precision, args), p.length, p.conv, args, taken, words);
  }

  /** The modifier letters and the independent account of a directive agree on the words. */
  lemma EmittedIsDirectiveWords(length: Length, conv: char, slot: U64)
    requires !length.OtherLength? && (IsSigned(conv) || IsUnsigned(conv))
    ensures Emitted(ModifierOf(length), conv, slot) == DirectiveWords(length, conv, slot)
  {
  }

  lemma PlainScanned(p: Piece, modifier: Modifier, taken: nat, words: seq<U32>, args: nat -> U64)
    requires !p.Directive? && WellFormed(p)
    ensures var r := Scan(Running(Ordinary, modifier, taken, words), Text(p), args);
            r.Running? && r.state == Ordinary && r.taken == taken && r.words == words
  {
    var s := Running(Ordinary, modifier, taken, words);
    var one := Step(s, Text(p)[0], args);
    if p.Percent? {
      assert Text(p)[1..] == "%";
      assert Scan(one, "%", args) == Scan(Step(one, '%', args), "", args);
    }
  }

  predicate Agree(s: Scanner, e: Effect) {
    match e
    case Halted(error) => s == Stopped(error)
    case Done(taken, words) => s.Running? && s.state == Ordinary && s.taken == taken && s.words == words
  }

  /** Scanning the text of any well-formed pieces does what the interpreter of pieces says. */
  lemma {:induction false} ScanIsInterpretation(ps: seq<Piece>, args: nat -> U64,
                                                modifier: Modifier, taken: nat, words: seq<U32>)
    requires forall k :: 0 <= k < |ps| ==> WellFormed(ps[k])
    ensures Agree(Scan(Running(Ordinary, modifier, taken, words), Render(ps), args),
                  Interpret(ps, args, taken, words))
    decreases ps
  {
    if ps != [] {
      var s := Running(Ordinary, modifier, taken, words);
      ScanSplit(s, Text(ps[0]), Render(ps[1..]), args);
      var next := Scan(s, Text(ps[0]), args);
      if ps[0].Directive? {
        DirectiveScanned(ps[0], modifier, taken, words, args);
        if Supported(ps[0]) {
          EmittedIsDirectiveWords(ps[0].length, ps[0].conv, args(taken));
        }
      } else {
        PlainScanned(ps[0], modifier, taken, words, args);
      }
      if next.Running? {
        ScanIsInterpretation(ps[1..], args, next.modifier, next.taken, next.words);
      }
    }
  }

  // ---------------------------------------------------------------------------------------------------
  // Letter by letter
  // ---------------------------------------------------------------------------------------------------

  /** The conversions that report a word; below, the conversions and lengths that are refused. */
  predicate ReportsWord(c: char) {
    c == 'c' || c == 'd' || c == 'i' || c == 'o' || c == 'u' || c == 'x' || c == 'X'
  }

  predicate IsRefused(c: char) {
    || c == 'e' || c == 'E' || c == 'f' || c == 'F' || c == 'g' || c == 'G' || c == 'a' || c == 'A' || c == 's'
    || c == 'p' || c == 'L' || c == 'q' || c == 'j' || c == 'z' || c == 't'
  }

  /** Flags, digits, star, dot and the two lengths that are known. */
  predicate IsPassedOver(c: char) {
    || c == '#' || c == '0' || c == '-' || c == ' ' || c == '+' || '1' <= c <= '9' || c == '*' || c == '.'
    || c == 'h' || c == 'l'
  }

  lemma ScanTwo(a: char, b: char, args: nat -> U64)
    requires Step(Start(), a, args).Running?
    ensures Scan(Start(), [a, b], args) == Step(Step(Start(), a, args), b, args)
  {
    assert [a, b][1..] == [b];
    assert Scan(Step(Start(), a, args), [b], args) == Scan(Step(Step(Start(), a, args), b, args), "", args);
  }

  lemma ReportOneWord(modifier: Modifier, taken: nat, w: U32)
    ensures Report(Running(Ordinary, modifier, taken, [w])) == Reported([w])
  {
    assert Pack([w]) == [w];
  }

  lemma StepAfterPercent(modifier: Modifier, c: char, args: nat -> U64)
    requires modifier == NoModifier
    ensures var s := Step(Running(Introduction, modifier, 0, []), c, args);
      && (ReportsWord(c) ==> s == Running(Ordinary, modifier, 1, [args(0) % TWO_32]))
      && (IsRefused(c) ==> s == Stopped(InvalidArgument))
      && (!ReportsWord(c) && !IsRefused(c) ==> s.Running? && s.words == [])
  {
  }

  /** What a percent sign and one character come to, for every character: seven conversions report a word, the
      other nine and five lengths are refused, and nothing else has any effect. */
  lemma OneLetterFormat(c: char, args: nat -> U64)
    ensures Report(Scan(Start(), ['%', c], args))
         == if ReportsWord(c) then Reported([args(0) % TWO_32])
            else if IsRefused(c) then Failed(InvalidArgument)
            else Silent
  {
    ScanTwo('%', c, args);
    StepAfterPercent(NoModifier, c, args);
    ReportOneWord(NoModifier, 1, args(0) % TWO_32);
  }

  /** The grammar knows the five flags, and the conversions and lengths that the two lemmas are about. */
  lemma GrammarLetters(c: char)
    ensures WellFormed(Directive([c], "", "", NoLength, 'u'))
       <==> c == '#' || c == '0' || c == '-' || c == ' ' || c == '+'
    ensures WellFormed(Directive("", "", "", NoLength, c)) || WellFormed(Directive("", "", "", OtherLength(c), 'u'))
       <==> ReportsWord(c) || IsRefused(c)
  {
    assert [c][0] == c;
  }

  lemma PassedOver(c: char, args: nat -> U64)
    requires IsPassedOver(c)
    ensures var s := Step(Running(Introduction, NoModifier, 0, []), c, args);
      && s.Running? && s.state != Ordinary && s.state != Conversion && s.taken == 0 && s.words == []
      && s.modifier == if c == 'h' then ShortMod else if c == 'l' then LongMod else NoModifier
  {
  }

  lemma ConvertsUnsigned(s: Scanner, args: nat -> U64)
    requires s.Running? && s.state != Ordinary && s.state != Conversion && s.taken == 0 && s.words == []
    requires s.modifier != LongLongMod
    ensures Step(s, 'u', args) == Running(Ordinary, s.modifier, 1, [args(0) % TWO_32])
  {
    assert NextState(s.state, 'u') == Conversion;
  }

  /** A flag, digit, star, dot or known length before a conversion leaves its word as it is. */
  lemma LetterPassedOver(c: char, args: nat -> U64)
    requires IsPassedOver(c)
    ensures Report(Scan(Start(), ['%', c] + ['u'], args)) == Reported([args(0) % TWO_32])
  {
    ScanSplit(Start(), ['%', c], ['u'], args);
    ScanTwo('%', c, args);
    PassedOver(c, args);
    var s := Scan(Start(), ['%', c], args);
    ConvertsUnsigned(s, args);
    assert Scan(s, ['u'], args) == Scan(Step(s, 'u', args), "", args);
    ReportOneWord(s.modifier, 1, args(0) % TWO_32);
  }

  // ---------------------------------------------------------------------------------------------------
  // What a supported format reports
  // ---------------------------------------------------------------------------------------------------

  function Directives(ps: seq<Piece>): nat {
    if ps == [] then 0 else (if ps[0].Directive? then 1 else 0) + Directives(ps[1..])
  }

  /** All words of a format, directive by directive, each from the next argument. */
  function AllWords(ps: seq<Piece>, args: nat -> U64, taken: nat): seq<U32> {
    if ps == [] then []
    else if ps[0].Directive? then
      DirectiveWords(ps[0].length, ps[0].conv, args(taken)) + AllWords(ps[1..], args, taken + 1)
    else AllWords(ps[1..], args, taken)
  }

  lemma {:induction false} SupportedInterpreted(ps: seq<Piece>, args: nat -> U64, taken: nat, words: seq<U32>)
    requires forall k :: 0 <= k < |ps| ==> Supported(ps[k])
    requires |words| <= 2 * MAX_MMRS
    ensures Interpret(ps, args, taken, words)
         == if |words| + |AllWords(ps, args, taken)| <= 2 * MAX_MMRS
            then Done(taken + Directives(ps), words + AllWords(ps, args, taken))
            else Halted(InsufficientResources)
    decreases ps
  {
    if ps == [] {
      assert words + [] == words;
    } else if ps[0].Directive? {
      var more := DirectiveWords(ps[0].length, ps[0].conv, args(taken));
      var rest := AllWords(ps[1..], args, taken + 1);
      assert words + (more + rest) == (words + more) + rest;
      if |words| + |more| <= 2 * MAX_MMRS {
        SupportedInterpreted(ps[1..], args, taken + 1, words + more);
      }
    } else {
      SupportedInterpreted(ps[1..], args, taken, words);
    }
  }

  /**
   * A format of literals, percent signs and supported directives takes one argument a directive and
   * reports all words packed, unless there are more than twelve of them.
   */
  lemma SupportedFormatReport(ps: seq<Piece>, args: nat -> U64)
    requires forall k :: 0 <= k < |ps| ==> WellFormed(ps[k]) && Supported(ps[k])
    ensures var words := AllWords(ps, args, 0);
            var s := Scan(Start(), Render(ps), args);
            && (Report(s) == if |words| > 12 then Failed(InsufficientResources)
                             else if words == [] then Silent else Reported(Pack(words)))
            && (s.Running? ==> s.taken == Directives(ps))
  {
    ScanIsInterpretation(ps, args, NoModifier, 0, []);
    SupportedInterpreted(ps, args, 0, []);
    assert [] + AllWords(ps, args, 0) == AllWords(ps, args, 0);
  }

  /** What the grammar assigns to the stars of a piece: one argument each, ahead of the value. */
  function Stars(p: Piece): nat {
    if p.Directive? then (if p.width == "*" then 1 else 0) + (if p.precision == ".*" then 1 else 0) else 0
  }

  /** The arguments that the grammar assigns to the values of the directives. */
  function AssignedValues(ps: seq<Piece>, taken: nat): seq<nat> {
    if ps == [] then []
    else if ps[0].Directive? then [taken + Stars(ps[0])] + AssignedValues(ps[1..], taken + Stars(ps[0]) + 1)
    else AssignedValues(ps[1..], taken)
  }

  /** All words of a format, each directive's from the argument listed for it. */
  function WordsFrom(ps: seq<Piece>, args: nat -> U64, from: seq<nat>): seq<U32>
    requires |from| == Directives(ps)
  {
    if ps == [] then []
    else if ps[0].Directive? then
      DirectiveWords(ps[0].length, ps[0].conv, args(from[0])) + WordsFrom(ps[1..], args, from[1..])
    else WordsFrom(ps[1..], args, from)
  }

  function Consecutive(taken: nat, n: nat): seq<nat> {
    seq(n, i => taken + i)
  }

  /** The scanner reads one argument after the other. */
  lemma {:induction false} WordsAreConsecutive(ps: seq<Piece>, args: nat -> U64, taken: nat)
    ensures AllWords(ps, args, taken) == WordsFrom(ps, args, Consecutive(taken, Directives(ps)))
    decreases ps
  {
    if ps != [] {
      if ps[0].Directive? {
        var from := Consecutive(taken, Directives(ps));
        assert from[0] == taken && from[1..] == Consecutive(taken + 1, Directives(ps[1..]));
        WordsAreConsecutive(ps[1..], args, taken + 1);
      } else {
        WordsAreConsecutive(ps[1..], args, taken);
      }
    }
  }

  /** Those are the arguments that the grammar assigns to the values if and only if there is no star. */
  lemma {:induction false} AssignedIffNoStar(ps: seq<Piece>, taken: nat)
    ensures |AssignedValues(ps, taken)| == Directives(ps)
    ensures AssignedValues(ps, taken) == Consecutive(taken, Directives(ps)) <==>
              forall k :: 0 <= k < |ps| ==> Stars(ps[k]) == 0
    decreases ps
  {
    if ps != [] {
      var from := Consecutive(taken, Directives(ps));
      assert forall k :: 0 < k < |ps| ==> ps[k] == ps[1..][k - 1];
      if ps[0].Directive? {
        assert from == [taken] + Consecutive(taken + 1, Directives(ps[1..]));
        AssignedIffNoStar(ps[1..], taken + Stars(ps[0]) + 1);
        if Stars(ps[0]) > 0 {
          assert AssignedValues(ps, taken)[0] != from[0];
        } else {
          SameHead(taken, AssignedValues(ps[1..], taken + 1), Consecutive(taken + 1, Directives(ps[1..])));
        }
      } else {
        AssignedIffNoStar(ps[1..], taken);
      }
    }
  }

  lemma SameHead(x: nat, a: seq<nat>, b: seq<nat>)
    ensures [x] + a == [x] + b <==> a == b
  {
    assert ([x] + a)[1..] == a && ([x] + b)[1..] == b;
  }

  /** Without stars a supported format whose words fit reports what the grammar assigns to it. */
  lemma StarFreeFormatIsRight(ps: seq<Piece>, args: nat -> U64)
    requires forall k :: 0 <= k < |ps| ==> WellFormed(ps[k]) && Supported(ps[k]) && Stars(ps[k]) == 0
    ensures |AssignedValues(ps, 0)| == Directives(ps)
    ensures var words := WordsFrom(ps, args, AssignedValues(ps, 0));
            Report(Scan(Start(), Render(ps), args))
            == if |words| > 2 * MAX_MMRS then Failed(InsufficientResources)
               else if words == [] then Silent else Reported(Pack(words))
  {
    AssignedIffNoStar(ps, 0);
    WordsAreConsecutive(ps, args, 0);
    SupportedFormatReport(ps, args);
  }

  /** With one it may not: `%*d` puts the width on record and leaves the value out. */
  lemma StarReadsTheWidth(args: nat -> U64)
    ensures var ps := [Directive("", "*", "", NoLength, 'd')];
            && AssignedValues(ps, 0) == [1]
            && Report(Scan(Start(), Render(ps), args)) == Reported([args(0) % TWO_32])
  {
    var ps := [Directive("", "*", "", NoLength, 'd')];
    SupportedFormatReport(ps, args);
    assert ps[1..] == [];
    assert AllWords(ps, args, 0) == [args(0) % TWO_32] + AllWords([], args, 1);
    assert Pack([args(0) % TWO_32]) == [args(0) % TWO_32];
  }

  /** A well-formed format is refused as invalid only for a directive that is not supported. */
  lemma {:induction false} InvalidOnlyIfUnsupported(ps: seq<Piece>, args: nat -> U64, taken: nat, words: seq<U32>)
    requires Interpret(ps, args, taken, words) == Halted(InvalidArgument)
    ensures exists k :: 0 <= k < |ps| && !Supported(ps[k])
    decreases ps
  {
    if Supported(ps[0]) {
      if ps[0].Directive? {
        var more := DirectiveWords(ps[0].length, ps[0].conv, args(taken));
        InvalidOnlyIfUnsupported(ps[1..], args, taken + 1, words + more);
      } else {
        InvalidOnlyIfUnsupported(ps[1..], args, taken, words);
      }
      var k :| 0 <= k < |ps[1..]| && !Supported(ps[1..][k]);
      assert !Supported(ps[k + 1]);
    }
  }

  /** A long long argument comes out whole exactly when it is unsigned or fits in one word. */
  lemma LongLongIsWholeIff(conv: char, slot: U64)
    requires IsSigned(conv) || IsUnsigned(conv)
    ensures var words := DirectiveWords(LL, conv, slot);
            words[0] + words[1] * TWO_32 == slot <==> IsUnsigned(conv) || slot < TWO_32
  {
    assert slot == slot % TWO_32 + slot / TWO_32 * TWO_32;
  }

  /** A zero before the last word of an odd row: what the register of a lone last word also stands for. */
  function Padded(words: seq<U32>): seq<U32> {
    if |words| % 2 == 0 then words
    else words[..|words| - 1] + [0, words[|words| - 1]]
  }

  /** The words of a register are its two halves. */
  lemma PackHalves(words: seq<U32>, k: nat)
    requires k < (|words| + 1) / 2
    ensures |Padded(words)| == 2 * ((|words| + 1) / 2)
    ensures Pack(words)[k] / TWO_32 == Padded(words)[2 * k]
    ensures Pack(words)[k] % TWO_32 == Padded(words)[2 * k + 1]
  {
  }

  /** Hence equal registers come from equal halves. */
  lemma PackTellsHalves(a: seq<U32>, b: seq<U32>)
    requires Pack(a) == Pack(b)
    ensures Padded(a) == Padded(b)
  {
    var n := |Pack(a)|;
    assert n == (|a| + 1) / 2 == (|b| + 1) / 2;
    forall j | 0 <= j < 2 * n
      ensures Padded(a)[j] == Padded(b)[j]
    {
      PackHalves(a, j / 2);
      PackHalves(b, j / 2);
    }
  }

  /** Two rows of words give the same registers exactly when they differ at most in that zero. */
  lemma SameRegistersIff(a: seq<U32>, b: seq<U32>)
    ensures Pack(a) == Pack(b) <==> Padded(a) == Padded(b)
  {
    if Pack(a) == Pack(b) {
      PackTellsHalves(a, b);
    }
    if Padded(a) == Padded(b) {
      assert |Padded(a)| == 2 * |Pack(a)| && |Padded(b)| == 2 * |Pack(b)|;
      forall k | 0 <= k < |Pack(a)|
        ensures Pack(a)[k] == Pack(b)[k]
      {
        PackHalves(a, k);
        PackHalves(b, k);
        SameHalves(Pack(a)[k], Pack(b)[k]);
      }
      assert Pack(a) == Pack(b);
    }
  }

  lemma SameHalves(x: U64, y: U64)
    requires x / TWO_32 == y / TWO_32 && x % TWO_32 == y % TWO_32
    ensures x == y
  {
  }
}
