/** From the text of one field to its word: comma lists of ranges with steps (parser.go). */
module Parser {
  import opened Bits
  import opened Results
  import opened Text

  const WORD_LIMIT: int := 0x1_0000_0000_0000_0000

  datatype Bounds = Bounds(min: nat, max: nat, names: map<string, nat>)

  const SECOND_BOUNDS := Bounds(0, 59, map[])
  const MINUTE_BOUNDS := Bounds(0, 59, map[])
  const HOUR_BOUNDS := Bounds(0, 23, map[])
  const DOM_BOUNDS := Bounds(1, 31, map[])
  const MONTH_BOUNDS := Bounds(1, 12, map[
    "jan" := 1, "feb" := 2, "mar" := 3, "apr" := 4, "may" := 5, "jun" := 6,
    "jul" := 7, "aug" := 8, "sep" := 9, "oct" := 10, "nov" := 11, "dec" := 12])
  const DOW_BOUNDS := Bounds(0, 6, map[
    "sun" := 0, "mon" := 1, "tue" := 2, "wed" := 3, "thu" := 4, "fri" := 5, "sat" := 6])

  predicate ValidBounds(b: Bounds) { b.min <= b.max <= 59 }

  datatype ParseError =
    | NotANumber | NegativeNumber | TooManySlashes | TooManyHyphens
    | BelowMinimum | AboveMaximum | StartBeyondEnd | StepNotPositive
    | FieldCount | MultipleOptionals | UnknownOptional
    | EmptySpec | DescriptorNotAllowed | MissingLocationName | MissingLocationSpec | BadLocation

  // ---------- the pieces of one range expression ----------

  function MustParseInt(expr: string): Result<nat, ParseError> {
    match Atoi(expr)
    case None => Err(NotANumber)
    case Some(n) => if n < 0 then Err(NegativeNumber) else Ok(n)
  }

  function ParseIntOrName(expr: string, names: map<string, nat>): Result<nat, ParseError> {
    if ToLower(expr) in names then Ok(names[ToLower(expr)]) else MustParseInt(expr)
  }

  datatype StepResult = StepResult(rangeExpr: string, step: nat, hasStep: bool)

  function ParseStep(expr: string): Result<StepResult, ParseError> {
    var parts := Split(expr, '/');
    if |parts| == 1 then Ok(StepResult(parts[0], 1, false))
    else if |parts| == 2 then
      match MustParseInt(parts[1])
      case Err(e) => Err(e)
      case Ok(step) => Ok(StepResult(parts[0], step, true))
    else Err(TooManySlashes)
  }

  datatype RangeBits = RangeBits(start: nat, end: nat, extra: Word)

  predicate IsStarText(s: string) { s == "*" || s == "?" }

  /** The range and whether it was a single value; a leading star wins over what follows it. */
  function ParseRangeExpr(rangeExpr: string, b: Bounds): Result<(RangeBits, bool), ParseError> {
    var parts := Split(rangeExpr, '-');
    if IsStarText(parts[0]) then Ok((RangeBits(b.min, b.max, STAR_BIT), |parts| == 1))
    else match ParseIntOrName(parts[0], b.names)
      case Err(e) => Err(e)
      case Ok(start) =>
        if |parts| == 1 then Ok((RangeBits(start, start, ZERO), true))
        else if |parts| == 2 then
          match ParseIntOrName(parts[1], b.names)
          case Err(e) => Err(e)
          case Ok(end) => Ok((RangeBits(start, end, ZERO), false))
        else Err(TooManyHyphens)
  }

  function ValidateRange(r: RangeBits, step: nat, b: Bounds): Option<ParseError> {
    if r.start < b.min then Some(BelowMinimum)
    else if r.end > b.max then Some(AboveMaximum)
    else if r.start > r.end then Some(StartBeyondEnd)
    else if step == 0 then Some(StepNotPositive)
    else None
  }

  // ---------- bits of a range ----------

  predicate InRun(i: int, lower: int, upper: int, step: int)
    requires step >= 1
  {
    lower <= i <= upper && (i - lower) % step == 0
  }

  /** The word whose bits are lower, lower + step, ... up to upper. */
  function Run(lower: nat, upper: nat, step: nat): (w: Word)
    requires step >= 1
  {
    seq(64, i requires 0 <= i < 64 => InRun(i, lower, upper, step))
  }

  lemma MulOrder(step: int, p: int, q: int)
    requires step >= 1 && p < q
    ensures step * p + step <= step * q
  {
    var gap := q - p - 1;
    assert 0 <= step * gap;
    assert step * q == step * (p + 1 + gap) == step * p + step + step * gap;
  }

  lemma MultiplesApart(x: int, y: int, step: int)
    requires step >= 1 && x % step == 0 && y % step == 0 && x <= y < x + step
    ensures x == y
  {
    var p, q := x / step, y / step;
    assert x == step * p && y == step * q;
    if p < q { MulOrder(step, p, q); }
    if q < p { MulOrder(step, q, p); }
  }

  lemma NextMultiple(x: int, step: int)
    requires step >= 1 && x % step == 0
    ensures (x + step) % step == 0
  {
    var p, y := x / step, x + step;
    var q, r := y / step, y % step;
    assert step * (p + 1) == step * q + r;
    if q < p + 1 { MulOrder(step, q, p + 1); }
    if p + 1 < q { MulOrder(step, p + 1, q); }
  }

  /** parser.go:525-539. The shift form and the loop set the same bits, and the 64-bit
      counter of the loop never wraps, so the loop ends. */
  method GetBits(lower: nat, upper: nat, step: nat) returns (bits: Word)
    requires upper < 64 && step >= 1 && upper + step < WORD_LIMIT
    ensures bits == Run(lower, upper, step)
  {
    if step == 1 {
      return And(Not(Shl(MAX_WORD, upper + 1)), Shl(MAX_WORD, lower));
    }
    bits := ZERO;
    var i := lower;
    while i <= upper
      invariant lower <= i && (i - lower) % step == 0
      invariant forall k | 0 <= k < 64 :: bits[k] <==> k < i && InRun(k, lower, upper, step)
      decreases WORD_LIMIT - i
    {
      ghost var before := bits;
      bits := Or(bits, Shl(ONE, i));
      forall k | 0 <= k < 64 && i < k < i + step ensures !InRun(k, lower, upper, step) {
        if InRun(k, lower, upper, step) { MultiplesApart(i - lower, k - lower, step); }
      }
      assert forall k | 0 <= k < 64 :: bits[k] <==> before[k] || k == i;
      NextMultiple(i - lower, step);
      i := (i + step) % WORD_LIMIT;
    }
  }

  // ---------- one range, one field ----------

  /** What one range expression yields. */
  function RangeWord(expr: string, b: Bounds): Result<Word, ParseError> {
    match ParseStep(expr)
    case Err(e) => Err(e)
    case Ok(st) =>
      match ParseRangeExpr(st.rangeExpr, b)
      case Err(e) => Err(e)
      case Ok((range, single)) =>
        var end := if st.hasStep && single then b.max else range.end;
        var extra := if st.hasStep && st.step > 1 then ZERO else range.extra;
        match ValidateRange(RangeBits(range.start, end, extra), st.step, b)
        case Some(e) => Err(e)
        case None => Ok(Or(Run(range.start, end, st.step), extra))
  }

  method GetRange(expr: string, b: Bounds) returns (r: Result<Word, ParseError>)
    requires ValidBounds(b)
    ensures r == RangeWord(expr, b)
  {
    var step := ParseStep(expr);
    if step.Err? {
      return Err(step.error);
    }
    var parsed := ParseRangeExpr(step.value.rangeExpr, b);
    if parsed.Err? {
      return Err(parsed.error);
    }
    var (range, single) := parsed.value;
    if step.value.hasStep && single {
      range := range.(end := b.max);
    }
    if step.value.hasStep && step.value.step > 1 {
      range := range.(extra := ZERO);
    }
    var invalid := ValidateRange(range, step.value.step, b);
    if invalid.Some? {
      return Err(invalid.value);
    }
    StepFits(expr);
    var bits := GetBits(range.start, range.end, step.value.step);
    r := Ok(Or(bits, range.extra));
  }

  lemma StepFits(expr: string)
    requires ParseStep(expr).Ok?
    ensures ParseStep(expr).value.step <= MAX_INT64
  {
  }

  /** The union of the ranges, or the first error. */
  function FieldWord(items: seq<string>, b: Bounds): Result<Word, ParseError> {
    if items == [] then Ok(ZERO)
    else match RangeWord(items[0], b)
      case Err(e) => Err(e)
      case Ok(w) =>
        match FieldWord(items[1..], b)
        case Err(e) => Err(e)
        case Ok(rest) => Ok(Or(w, rest))
  }

  method GetField(field: string, b: Bounds) returns (r: Result<Word, ParseError>)
    requires ValidBounds(b)
    ensures r == FieldWord(Tokens(field, IsComma), b)
  {
    hide RangeWord, Tokens;
    var ranges := Tokens(field, IsComma);
    var bits := ZERO;
    var i := 0;
    assert ranges[0..] == ranges;
    if FieldWord(ranges, b).Ok? { OrAssociates(FieldWord(ranges, b).value, ZERO, FieldWord(ranges, b)); }
    while i < |ranges|
      invariant 0 <= i <= |ranges|
      invariant FieldWord(ranges, b) == match FieldWord(ranges[i..], b)
                                        case Err(e) => Err(e)
                                        case Ok(rest) => Ok(Or(bits, rest))
    {
      assert ranges[i..][1..] == ranges[i + 1..];
      var bit := GetRange(ranges[i], b);
      if bit.Err? {
        return Err(bit.error);
      }
      OrAssociates(bits, bit.value, FieldWord(ranges[i + 1..], b));
      bits := Or(bits, bit.value);
      i := i + 1;
    }
    assert Or(bits, ZERO) == bits;
    r := Ok(bits);
  }

  lemma OrAssociates(a: Word, b: Word, rest: Result<Word, ParseError>)
    ensures rest.Ok? ==> Or(a, Or(b, rest.value)) == Or(Or(a, b), rest.value)
    ensures Or(ZERO, a) == a
  {
    assert Or(ZERO, a) == a;
    if rest.Ok? { assert Or(a, Or(b, rest.value)) == Or(Or(a, b), rest.value); }
  }

  // ---------- what a field means, read from its grammar ----------

  datatype RangeText = Star(mark: char, tail: Option<string>) | One(number: string) | Two(low: string, high: string)
  datatype Item = Item(range: RangeText, step: Option<string>)

  function ShowRange(r: RangeText): string {
    match r
    case Star(mark, None) => [mark]
    case Star(mark, Some(tail)) => [mark] + "-" + tail
    case One(number) => number
    case Two(low, high) => low + "-" + high
  }

  function Show(item: Item): string {
    match item.step
    case None => ShowRange(item.range)
    case Some(step) => ShowRange(item.range) + "/" + step
  }

  predicate WellFormed(item: Item) {
    && '/' !in ShowRange(item.range)
    && (item.step.Some? ==> '/' !in item.step.value)
    && match item.range
       case Star(mark, _) => mark == '*' || mark == '?'
       case One(number) => '-' !in number && !IsStarText(number)
       case Two(low, high) => '-' !in low && '-' !in high && !IsStarText(low)
  }

  /** start, start + step, ... up to end; `star` when the item stands for "any". */
  datatype Progression = Progression(start: nat, end: nat, step: nat, star: bool)

  /** The value of a number or a name. */
  function Number(s: string, names: map<string, nat>): Option<nat> {
    var lower := ToLower(s);
    if lower in names then Some(names[lower])
    else match Atoi(s)
      case Some(n) => if n >= 0 then Some(n) else None
      case None => None
  }

  function StepOf(item: Item): Option<nat> {
    if item.step.None? then Some(1) else Number(item.step.value, map[])
  }

  function EndsOf(item: Item, b: Bounds): Option<(nat, nat)> {
    match item.range
    case Star(_, _) => Some((b.min, b.max))
    case One(number) =>
      (match Number(number, b.names)
       case None => None
       case Some(n) => Some((n, if item.step.Some? then b.max else n)))
    case Two(low, high) =>
      match Number(low, b.names)
      case None => None
      case Some(l) =>
        match Number(high, b.names)
        case None => None
        case Some(h) => Some((l, h))
  }

  /** The progression an item stands for, if it is valid for these bounds. */
  function Meaning(item: Item, b: Bounds): Option<Progression> {
    match StepOf(item)
    case None => None
    case Some(step) =>
      match EndsOf(item, b)
      case None => None
      case Some((start, end)) =>
        if b.min <= start <= end <= b.max && step >= 1
        then Some(Progression(start, end, step, item.range.Star? && step == 1))
        else None
  }

  /** A word holds exactly a progression, and its star bit exactly the star. */
  predicate Holds(w: Word, p: Progression)
    requires p.step >= 1
  {
    && (forall i | 0 <= i < STAR_POSITION :: w[i] <==> InRun(i, p.start, p.end, p.step))
    && (w[STAR_POSITION] <==> p.star)
  }

  lemma StarBitAlone(i: nat)
    requires i < 64
    ensures STAR_BIT[i] <==> i == STAR_POSITION
  {
  }

  lemma SplitOfRange(r: RangeText)
    requires WellFormed(Item(r, None))
    ensures var parts := Split(ShowRange(r), '-');
            match r
            case Star(mark, tail) => parts[0] == [mark] && (|parts| == 1 <==> tail.None?)
            case One(number) => parts == [number]
            case Two(low, high) => parts == [low, high]
  {
    match r {
      case Star(mark, None) => SplitNone([mark], '-');
      case Star(mark, Some(tail)) => SplitFirst([mark], '-', tail);
      case One(number) => SplitNone(number, '-');
      case Two(low, high) =>
        SplitFirst(low, '-', high);
        SplitNone(high, '-');
    }
  }

  lemma SplitOfItem(item: Item)
    requires WellFormed(item)
    ensures Split(Show(item), '/') ==
            if item.step.None? then [ShowRange(item.range)] else [ShowRange(item.range), item.step.value]
  {
    var range := ShowRange(item.range);
    match item.step {
      case None => SplitNone(range, '/');
      case Some(step) =>
        SplitFirst(range, '/', step);
        SplitNone(step, '/');
    }
  }

  lemma StepIsRead(item: Item)
    requires WellFormed(item)
    ensures ParseStep(Show(item)) ==
            match item.step
            case None => Ok(StepResult(ShowRange(item.range), 1, false))
            case Some(text) =>
              match MustParseInt(text)
              case Err(e) => Err(e)
              case Ok(step) => Ok(StepResult(ShowRange(item.range), step, true))
  {
    hide Split, Atoi, ShowRange;
    SplitOfItem(item);
  }

  lemma EndsAreRead(item: Item, b: Bounds)
    requires WellFormed(item)
    ensures match EndsOf(item, b)
            case None => ParseRangeExpr(ShowRange(item.range), b).Err?
            case Some((start, end)) =>
              ParseRangeExpr(ShowRange(item.range), b).Ok? &&
              var (range, single) := ParseRangeExpr(ShowRange(item.range), b).value;
              range.start == start && range.extra == (if item.range.Star? then STAR_BIT else ZERO) &&
              end == if item.step.Some? && single then b.max else range.end
  {
    hide Split, Atoi, ToLower, ShowRange;
    SplitOfRange(item.range);
  }

  lemma RunHolds(start: nat, end: nat, step: nat, star: bool)
    requires end <= 59 && step >= 1
    ensures Holds(Or(Run(start, end, step), if star then STAR_BIT else ZERO), Progression(start, end, step, star))
  {
    StarBitAlone(STAR_POSITION);
    forall i | 0 <= i < STAR_POSITION ensures !STAR_BIT[i] { StarBitAlone(i); }
  }

  /** Every item of the grammar is read as the progression it stands for, and is refused
      exactly when it stands for none. */
  lemma ItemIsReadAsMeant(item: Item, b: Bounds)
    requires WellFormed(item) && ValidBounds(b)
    ensures match Meaning(item, b)
            case None => RangeWord(Show(item), b).Err?
            case Some(p) => RangeWord(Show(item), b).Ok? && Holds(RangeWord(Show(item), b).value, p)
  {
    hide Split, Atoi, ToLower, ShowRange, Show, ParseStep, ParseRangeExpr, EndsOf, WellFormed, Run, Or, Holds;
    StepIsRead(item);
    EndsAreRead(item, b);
    match Meaning(item, b) {
      case None =>
      case Some(p) => RunHolds(p.start, p.end, p.step, p.star);
    }
  }

  /** Every text that is accepted is an item of the grammar. */
  lemma AcceptedIsItem(expr: string, b: Bounds) returns (item: Item)
    requires RangeWord(expr, b).Ok?
    ensures WellFormed(item) && Show(item) == expr
  {
    SplitJoin(expr, '/');
    var parts := Split(expr, '/');
    var range := RangeOf(parts[0], b);
    assert |parts| == 2 ==> Join(parts, "/") == parts[0] + "/" + parts[1];
    item := Item(range, if |parts| == 1 then None else Some(parts[1]));
  }

  lemma RangeOf(expr: string, b: Bounds) returns (r: RangeText)
    requires ParseRangeExpr(expr, b).Ok?
    ensures ShowRange(r) == expr
    ensures '/' !in expr ==> WellFormed(Item(r, None))
  {
    hide Atoi, ToLower;
    SplitJoin(expr, '-');
    var parts := Split(expr, '-');
    if IsStarText(parts[0]) {
      r := Star(parts[0][0], if |parts| == 1 then None else Some(Join(parts[1..], "-")));
    } else if |parts| == 1 {
      r := One(parts[0]);
    } else {
      assert Join(parts, "-") == parts[0] + "-" + parts[1];
      r := Two(parts[0], parts[1]);
    }
  }

  /** A field is accepted exactly when all its items are, and then holds their union. */
  lemma {:induction false} FieldIsUnion(items: seq<string>, b: Bounds)
    ensures FieldWord(items, b).Ok? <==> forall k | 0 <= k < |items| :: RangeWord(items[k], b).Ok?
    ensures FieldWord(items, b).Ok? ==>
              forall i | 0 <= i < 64 :: FieldWord(items, b).value[i] <==>
                exists k :: 0 <= k < |items| && RangeWord(items[k], b).value[i]
  {
    hide RangeWord;
    if items != [] {
      FieldIsUnion(items[1..], b);
      assert forall k | 1 <= k < |items| :: items[k] == items[1..][k - 1];
      if FieldWord(items, b).Ok? {
        var w, rest := RangeWord(items[0], b).value, FieldWord(items[1..], b).value;
        forall i | 0 <= i < 64
          ensures FieldWord(items, b).value[i] <==> exists k :: 0 <= k < |items| && RangeWord(items[k], b).value[i]
        {
          if rest[i] {
            var k :| 0 <= k < |items[1..]| && RangeWord(items[1..][k], b).value[i];
            assert RangeWord(items[k + 1], b).value[i];
          }
        }
      }
    }
  }

  // ---------- what a field means ----------

  /** A text stands for a progression if it is an item of the grammar that means it. */
  ghost predicate Denotes(text: string, b: Bounds, p: Progression): (yes: bool)
    ensures yes ==> p.step >= 1
  {
    p.step >= 1 && exists item :: WellFormed(item) && Show(item) == text && Meaning(item, b) == Some(p)
  }

  ghost predicate DenotesSomething(text: string, b: Bounds) {
    exists p :: Denotes(text, b, p)
  }

  /** The comma items of a field all stand for something. */
  ghost predicate FieldAccepted(field: string, b: Bounds) {
    forall k | 0 <= k < |Tokens(field, IsComma)| :: DenotesSomething(Tokens(field, IsComma)[k], b)
  }

  /** Some comma item stands for a progression that contains position i. */
  ghost predicate Selected(field: string, b: Bounds, i: int) {
    exists k, p :: 0 <= k < |Tokens(field, IsComma)| && Denotes(Tokens(field, IsComma)[k], b, p) &&
                   InRun(i, p.start, p.end, p.step)
  }

  /** Some comma item stands for the whole range. */
  ghost predicate StarSelected(field: string, b: Bounds) {
    exists k, p :: 0 <= k < |Tokens(field, IsComma)| && Denotes(Tokens(field, IsComma)[k], b, p) && p.star
  }

  /** A word is what a field says. */
  ghost predicate FieldMeans(field: string, b: Bounds, w: Word) {
    && (forall i | 0 <= i < STAR_POSITION :: w[i] <==> Selected(field, b, i))
    && (w[STAR_POSITION] <==> StarSelected(field, b))
  }

  lemma RangeIsDenoted(expr: string, b: Bounds)
    requires ValidBounds(b)
    ensures RangeWord(expr, b).Ok? <==> DenotesSomething(expr, b)
    ensures RangeWord(expr, b).Ok? ==> forall p | Denotes(expr, b, p) :: Holds(RangeWord(expr, b).value, p)
  {
    hide RangeWord, WellFormed, Show, Meaning, Holds;
    if RangeWord(expr, b).Ok? {
      var item := AcceptedIsItem(expr, b);
      ItemIsReadAsMeant(item, b);
      MeaningSteps(item, b);
      assert Denotes(expr, b, Meaning(item, b).value);
    }
    forall p | Denotes(expr, b, p) ensures RangeWord(expr, b).Ok? && Holds(RangeWord(expr, b).value, p) {
      var item :| WellFormed(item) && Show(item) == expr && Meaning(item, b) == Some(p);
      ItemIsReadAsMeant(item, b);
    }
  }

  lemma MeaningSteps(item: Item, b: Bounds)
    ensures Meaning(item, b).Some? ==> Meaning(item, b).value.step >= 1
  {
    hide EndsOf, StepOf;
  }

  lemma FieldAcceptedExactly(field: string, b: Bounds)
    requires ValidBounds(b)
    ensures FieldWord(Tokens(field, IsComma), b).Ok? <==> FieldAccepted(field, b)
  {
    var items := Tokens(field, IsComma);
    hide RangeWord, FieldWord, Tokens, DenotesSomething;
    FieldIsUnion(items, b);
    forall k | 0 <= k < |items| ensures RangeWord(items[k], b).Ok? <==> DenotesSomething(items[k], b) {
      RangeIsDenoted(items[k], b);
    }
  }

  /** A field is accepted exactly when every comma item stands for something; its bit i is then
      set exactly when some item contains i, and its star bit when some item is the whole range. */
  lemma FieldIsMeant(field: string, b: Bounds)
    requires ValidBounds(b)
    ensures FieldWord(Tokens(field, IsComma), b).Ok? <==> FieldAccepted(field, b)
    ensures FieldWord(Tokens(field, IsComma), b).Ok? ==>
              FieldMeans(field, b, FieldWord(Tokens(field, IsComma), b).value)
    ensures forall k | 0 <= k < |Tokens(field, IsComma)| :: IsToken(Tokens(field, IsComma)[k], IsComma)
  {
    TokensAreTokens(field, IsComma);
    hide RangeWord, FieldWord, Tokens, Denotes, IsToken, FieldAccepted, Selected, StarSelected;
    FieldAcceptedExactly(field, b);
    if FieldWord(Tokens(field, IsComma), b).Ok? {
      var w := FieldWord(Tokens(field, IsComma), b).value;
      forall i | 0 <= i < STAR_POSITION ensures w[i] <==> Selected(field, b, i) { BitIsMeant(field, b, i); }
      StarIsMeant(field, b);
    }
  }

  lemma BitIsMeant(field: string, b: Bounds, i: nat)
    requires ValidBounds(b) && i < STAR_POSITION && FieldWord(Tokens(field, IsComma), b).Ok?
    ensures FieldWord(Tokens(field, IsComma), b).value[i] <==> Selected(field, b, i)
  {
    var items := Tokens(field, IsComma);
    hide RangeWord, FieldWord, Tokens, Denotes;
    FieldIsUnion(items, b);
    if k :| 0 <= k < |items| && RangeWord(items[k], b).value[i] {
      RangeIsDenoted(items[k], b);
      var p :| Denotes(items[k], b, p);
      DenotedSteps(items[k], b, p);
      assert InRun(i, p.start, p.end, p.step);
    }
    if Selected(field, b, i) {
      var k, p :| 0 <= k < |items| && Denotes(items[k], b, p) && InRun(i, p.start, p.end, p.step);
      RangeIsDenoted(items[k], b);
      assert RangeWord(items[k], b).value[i];
    }
  }

  lemma StarIsMeant(field: string, b: Bounds)
    requires ValidBounds(b) && FieldWord(Tokens(field, IsComma), b).Ok?
    ensures FieldWord(Tokens(field, IsComma), b).value[STAR_POSITION] <==> StarSelected(field, b)
  {
    var items := Tokens(field, IsComma);
    hide RangeWord, FieldWord, Tokens, Denotes;
    FieldIsUnion(items, b);
    if k :| 0 <= k < |items| && RangeWord(items[k], b).value[STAR_POSITION] {
      RangeIsDenoted(items[k], b);
      var p :| Denotes(items[k], b, p);
      DenotedSteps(items[k], b, p);
    }
    if StarSelected(field, b) {
      var k, p :| 0 <= k < |items| && Denotes(items[k], b, p) && p.star;
      RangeIsDenoted(items[k], b);
      DenotedSteps(items[k], b, p);
      assert RangeWord(items[k], b).value[STAR_POSITION];
    }
  }

  lemma DenotedSteps(text: string, b: Bounds, p: Progression)
    requires Denotes(text, b, p)
    ensures p.step >= 1 && b.min <= p.start <= p.end <= b.max
  {
  }

  // ---------- what every accepted field satisfies ----------

  predicate InBounds(w: Word, b: Bounds) {
    forall i | 0 <= i < STAR_POSITION :: w[i] ==> b.min <= i <= b.max
  }

  predicate Full(w: Word, b: Bounds) {
    forall i | 0 <= i < STAR_POSITION && b.min <= i <= b.max :: w[i]
  }

  /** A parsed field: no bit outside its bounds, and a star only over the whole range. */
  predicate ParsedField(w: Word, b: Bounds) {
    InBounds(w, b) && (w[STAR_POSITION] ==> Full(w, b))
  }

  lemma RangeIsParsedField(expr: string, b: Bounds)
    requires ValidBounds(b) && RangeWord(expr, b).Ok?
    ensures ParsedField(RangeWord(expr, b).value, b)
  {
    var item := AcceptedIsItem(expr, b);
    ItemIsReadAsMeant(item, b);
    hide RangeWord;
    var p := Meaning(item, b).value;
    if p.star {
      forall i | 0 <= i < STAR_POSITION && b.min <= i <= b.max
        ensures InRun(i, p.start, p.end, p.step) {}
    }
  }

  /** Through ranges, steps and unions, the star bit implies every bit of the range. */
  lemma FieldIsParsedField(items: seq<string>, b: Bounds)
    requires ValidBounds(b) && FieldWord(items, b).Ok?
    ensures ParsedField(FieldWord(items, b).value, b)
  {
    hide RangeWord, FieldWord;
    FieldIsUnion(items, b);
    forall k | 0 <= k < |items| ensures ParsedField(RangeWord(items[k], b).value, b) {
      RangeIsParsedField(items[k], b);
    }
  }

  // ---------- which fields select something ----------

  predicate NonEmpty(w: Word, b: Bounds) {
    exists i :: 0 <= i < STAR_POSITION && b.min <= i <= b.max && w[i]
  }

  /** There is something in the text besides commas. */
  predicate BesidesCommas(field: string) {
    exists i :: 0 <= i < |field| && field[i] != ','
  }

  /** A field of nothing but commas is accepted and selects nothing. */
  lemma {:induction false} OnlyCommasIsEmpty(field: string, b: Bounds)
    requires forall i | 0 <= i < |field| :: field[i] == ','
    ensures FieldWord(Tokens(field, IsComma), b) == Ok(ZERO)
    decreases |field|
  {
    if field != "" { OnlyCommasIsEmpty(field[1..], b); }
  }

  lemma {:induction false} SomeToken(field: string)
    requires BesidesCommas(field)
    ensures Tokens(field, IsComma) != []
    decreases |field|
  {
    if IsComma(field[0]) {
      var i :| 0 <= i < |field| && field[i] != ',';
      assert field[1..][i - 1] != ',';
      SomeToken(field[1..]);
    }
  }

  lemma SomethingIsSelected(field: string, b: Bounds) returns (i: nat)
    requires ValidBounds(b) && FieldAccepted(field, b) && BesidesCommas(field)
    ensures b.min <= i <= b.max && Selected(field, b, i)
  {
    var items := Tokens(field, IsComma);
    SomeToken(field);
    hide Tokens, Denotes;
    assert DenotesSomething(items[0], b);
    var p :| Denotes(items[0], b, p);
    DenotedSteps(items[0], b, p);
    i := p.start;
    assert InRun(i, p.start, p.end, p.step);
  }

  /** An accepted field selects something exactly when there is something in it besides commas. */
  lemma FieldSelectsSomething(field: string, b: Bounds)
    requires ValidBounds(b) && FieldWord(Tokens(field, IsComma), b).Ok?
    ensures NonEmpty(FieldWord(Tokens(field, IsComma), b).value, b) <==> BesidesCommas(field)
  {
    hide FieldWord, Tokens, FieldAccepted, Selected, StarSelected;
    if BesidesCommas(field) {
      FieldIsMeant(field, b);
      var i := SomethingIsSelected(field, b);
      assert FieldWord(Tokens(field, IsComma), b).value[i];
    } else {
      OnlyCommasIsEmpty(field, b);
    }
  }
}
