/** From a whole specification to a schedule: optional fields, defaults, zone prefix (parser.go). */
module Fields {
  import opened Bits
  import opened Calendar
  import opened Parser
  import opened Results
  import opened Spec
  import opened Text

  /** Which fields a parser takes, and the two that may be left out. */
  datatype Options = Options(
    second: bool, secondOptional: bool, minute: bool, hour: bool, dom: bool, month: bool,
    dow: bool, dowOptional: bool, descriptor: bool)

  const DEFAULTS: seq<string> := ["0", "0", "0", "*", "*", "*"]

  function OptionalCount(o: Options): nat {
    (if o.secondOptional then 1 else 0) + (if o.dowOptional then 1 else 0)
  }

  function NormalizeOptions(o: Options): Result<Options, ParseError> {
    if OptionalCount(o) > 1 then Err(MultipleOptionals)
    else Ok(o.(second := o.second || o.secondOptional, dow := o.dow || o.dowOptional))
  }

  function Enabled(o: Options): (places: seq<bool>)
    ensures |places| == 6
  {
    [o.second, o.minute, o.hour, o.dom, o.month, o.dow]
  }

  function CountTrue(places: seq<bool>): (n: nat)
    ensures n <= |places|
  {
    if places == [] then 0 else (if places[0] then 1 else 0) + CountTrue(places[1..])
  }

  /** The given fields at the enabled places, in order, and defaults at the others. */
  function Expand(fields: seq<string>, places: seq<bool>, defaults: seq<string>): (r: seq<string>)
    requires |places| == |defaults| && |fields| >= CountTrue(places)
    ensures |r| == |places|
  {
    if places == [] then []
    else if places[0] then [fields[0]] + Expand(fields[1..], places[1..], defaults[1..])
    else [defaults[0]] + Expand(fields, places[1..], defaults[1..])
  }

  method CountPlaces(o: Options) returns (maxFields: nat)
    ensures maxFields == CountTrue(Enabled(o))
  {
    var places := Enabled(o);
    maxFields := 0;
    var i := 0;
    assert places[0..] == places;
    while i < |places|
      invariant 0 <= i <= |places|
      invariant CountTrue(places) == maxFields + CountTrue(places[i..])
    {
      assert places[i..][1..] == places[i + 1..];
      if places[i] {
        maxFields := maxFields + 1;
      }
      i := i + 1;
    }
  }

  lemma ExpandStep(fields: seq<string>, k: nat, places: seq<bool>, defaults: seq<string>, i: nat)
    requires i < |places| == |defaults| && k <= |fields| && CountTrue(places[i..]) <= |fields| - k
    ensures var k' := if places[i] then k + 1 else k;
            k' <= |fields| && CountTrue(places[i + 1..]) <= |fields| - k' &&
            Expand(fields[k..], places[i..], defaults[i..]) ==
            [if places[i] then fields[k] else defaults[i]] + Expand(fields[k'..], places[i + 1..], defaults[i + 1..])
  {
    assert places[i..][1..] == places[i + 1..] && defaults[i..][1..] == defaults[i + 1..];
    if places[i] { assert fields[k..][1..] == fields[k + 1..]; }
  }

  method ExpandFields(fields: seq<string>, places: seq<bool>, defaults: seq<string>) returns (expanded: seq<string>)
    requires |places| == |defaults| && |fields| >= CountTrue(places)
    ensures expanded == Expand(fields, places, defaults)
  {
    hide Expand, CountTrue;
    var fieldIndex := 0;
    expanded := defaults;
    var i := 0;
    assert places[0..] == places && defaults[0..] == defaults && fields[0..] == fields;
    ghost var whole := Expand(fields, places, defaults);
    while i < |places|
      invariant 0 <= i <= |places| && |expanded| == |places| && 0 <= fieldIndex <= |fields|
      invariant CountTrue(places[i..]) <= |fields| - fieldIndex
      invariant forall j | i <= j < |places| :: expanded[j] == defaults[j]
      invariant whole == expanded[..i] + Expand(fields[fieldIndex..], places[i..], defaults[i..])
    {
      ExpandStep(fields, fieldIndex, places, defaults, i);
      ghost var before := expanded;
      if places[i] {
        expanded := expanded[i := fields[fieldIndex]];
        fieldIndex := fieldIndex + 1;
      }
      assert expanded[..i + 1] == before[..i] + [expanded[i]];
      i := i + 1;
    }
    assert expanded[..i] == expanded;
  }

  function PopulateOptionalField(fields: seq<string>, o: Options, minFields: int, maxFields: int)
    : Result<seq<string>, ParseError>
  {
    if minFields == maxFields || |fields| != minFields then Ok(fields)
    else if o.dowOptional then Ok(fields + [DEFAULTS[5]])
    else if o.secondOptional then Ok([DEFAULTS[0]] + fields)
    else Err(UnknownOptional)
  }

  /** parser.go:172-191: all six fields, in place. */
  function NormalizedFields(fields: seq<string>, o: Options): (r: Result<seq<string>, ParseError>)
    ensures r.Ok? ==> |r.value| == 6
  {
    match NormalizeOptions(o)
    case Err(e) => Err(e)
    case Ok(normalized) =>
      var maxFields := CountTrue(Enabled(normalized));
      var minFields := maxFields - OptionalCount(o);
      if !(minFields <= |fields| <= maxFields) then Err(FieldCount)
      else
        match PopulateOptionalField(fields, normalized, minFields, maxFields)
        case Err(e) => Err(e)
        case Ok(populated) => Ok(Expand(populated, Enabled(normalized), DEFAULTS))
  }

  method NormalizeFields(fields: seq<string>, o: Options) returns (r: Result<seq<string>, ParseError>)
    ensures r == NormalizedFields(fields, o)
  {
    var normalized := NormalizeOptions(o);
    if normalized.Err? {
      return Err(normalized.error);
    }
    var maxFields := CountPlaces(normalized.value);
    var minFields := maxFields - OptionalCount(o);
    if |fields| < minFields || |fields| > maxFields {
      return Err(FieldCount);
    }
    var populated := PopulateOptionalField(fields, normalized.value, minFields, maxFields);
    match populated
    case Err(e) => r := Err(e);
    case Ok(complete) =>
      var expanded := ExpandFields(complete, Enabled(normalized.value), DEFAULTS);
      r := Ok(expanded);
  }

  // ---------- laws of normalisation ----------

  /** The elements of a list at the places marked true. */
  function Select(list: seq<string>, places: seq<bool>): seq<string>
    requires |list| == |places|
  {
    if list == [] then []
    else (if places[0] then [list[0]] else []) + Select(list[1..], places[1..])
  }

  /** Expansion puts the given fields, in order and all of them, at the enabled places and
      leaves the defaults at the others. */
  lemma {:induction false} ExpandPlaces(fields: seq<string>, places: seq<bool>, defaults: seq<string>)
    requires |places| == |defaults| && |fields| == CountTrue(places)
    ensures Select(Expand(fields, places, defaults), places) == fields
    ensures forall i | 0 <= i < |places| && !places[i] :: Expand(fields, places, defaults)[i] == defaults[i]
  {
    if places != [] {
      var r := Expand(fields, places, defaults);
      if places[0] {
        ExpandPlaces(fields[1..], places[1..], defaults[1..]);
        assert r[1..] == Expand(fields[1..], places[1..], defaults[1..]);
      } else {
        ExpandPlaces(fields, places[1..], defaults[1..]);
        assert r[1..] == Expand(fields, places[1..], defaults[1..]);
      }
      forall i | 0 <= i < |places| && !places[i] ensures r[i] == defaults[i] {
        if i > 0 { assert r[i] == r[1..][i - 1] && places[1..][i - 1] == places[i]; }
      }
    }
  }

  /** The fields that may be written, one for each option that stands for a field. */
  function FieldsWanted(o: Options): nat {
    Bit(o.second || o.secondOptional) + Bit(o.minute) + Bit(o.hour) + Bit(o.dom) + Bit(o.month) +
    Bit(o.dow || o.dowOptional)
  }

  /** Normalisation accepts exactly the counts that leave out nothing, or the one optional field;
      the error for an unknown optional field never occurs. */
  lemma NormalizeAccepts(fields: seq<string>, o: Options)
    ensures NormalizedFields(fields, o).Err? ==>
              NormalizedFields(fields, o).error ==
              if o.secondOptional && o.dowOptional then MultipleOptionals else FieldCount
    ensures NormalizedFields(fields, o).Ok? <==>
            && !(o.secondOptional && o.dowOptional)
            && (|fields| == FieldsWanted(o) ||
                (|fields| == FieldsWanted(o) - 1 && (o.secondOptional || o.dowOptional)))
  {
    PlacesWanted(o);
    hide CountTrue, Expand, Enabled;
  }

  lemma PlacesWanted(o: Options)
    ensures NormalizeOptions(o).Ok? ==> CountTrue(Enabled(NormalizeOptions(o).value)) == FieldsWanted(o)
  {
    if NormalizeOptions(o).Ok? {
      var places := Enabled(NormalizeOptions(o).value);
      hide CountTrue;
      CountUpTo(places, 6);
      assert places[..6] == places;
      assert UpTo(places, 1) == Bit(places[0]);
      assert UpTo(places, 2) == UpTo(places, 1) + Bit(places[1]);
      assert UpTo(places, 4) == UpTo(places, 2) + Bit(places[2]) + Bit(places[3]);
      assert UpTo(places, 6) == UpTo(places, 4) + Bit(places[4]) + Bit(places[5]);
      hide UpTo, Bit;
    }
  }

  /** How many of the first n places are marked, summed from the left. */
  function UpTo(places: seq<bool>, n: nat): nat
    requires n <= |places|
  {
    if n == 0 then 0 else UpTo(places, n - 1) + Bit(places[n - 1])
  }

  function Bit(b: bool): nat { if b then 1 else 0 }

  lemma {:induction false} CountUpTo(places: seq<bool>, n: nat)
    requires n <= |places|
    ensures CountTrue(places[..n]) == UpTo(places, n)
  {
    if n > 0 {
      CountUpTo(places, n - 1);
      CountSnoc(places[..n - 1], places[n - 1]);
      assert places[..n] == places[..n - 1] + [places[n - 1]];
    }
  }

  lemma {:induction false} CountSnoc(places: seq<bool>, last: bool)
    ensures CountTrue(places + [last]) == CountTrue(places) + if last then 1 else 0
  {
    if places != [] {
      CountSnoc(places[1..], last);
      assert (places + [last])[1..] == places[1..] + [last];
    }
  }

  /** Each place, read by itself. */
  lemma {:induction false} ExpandAt(fields: seq<string>, places: seq<bool>, defaults: seq<string>, i: nat)
    requires |places| == |defaults| && |fields| == CountTrue(places) && i < |places|
    ensures CountTrue(places[..i]) + (if places[i] then 1 else 0) <= |fields|
    ensures Expand(fields, places, defaults)[i] ==
            if places[i] then fields[CountTrue(places[..i])] else defaults[i]
  {
    if i > 0 {
      ExpandAt(if places[0] then fields[1..] else fields, places[1..], defaults[1..], i - 1);
      assert places[..i][1..] == places[1..][..i - 1];
    }
  }

  /** One of the six places holds the list's element n if it is wanted, and its default if not. */
  predicate Placed(list: seq<string>, field: string, wanted: bool, n: nat, default: string) {
    if wanted then n < |list| && field == list[n] else field == default
  }

  /** The list, in order, at those of the six places that are wanted, and defaults at the others. */
  predicate InPlace(list: seq<string>, six: seq<string>, defaults: seq<string>,
                    second: bool, minute: bool, hour: bool, dom: bool, month: bool, dow: bool)
    requires |six| == |defaults| == 6
  {
    && |list| == Bit(second) + Bit(minute) + Bit(hour) + Bit(dom) + Bit(month) + Bit(dow)
    && Placed(list, six[0], second, 0, defaults[0])
    && Placed(list, six[1], minute, Bit(second), defaults[1])
    && Placed(list, six[2], hour, Bit(second) + Bit(minute), defaults[2])
    && Placed(list, six[3], dom, Bit(second) + Bit(minute) + Bit(hour), defaults[3])
    && Placed(list, six[4], month, Bit(second) + Bit(minute) + Bit(hour) + Bit(dom), defaults[4])
    && Placed(list, six[5], dow, Bit(second) + Bit(minute) + Bit(hour) + Bit(dom) + Bit(month), defaults[5])
  }

  /** Accepted fields go to the places that the options name, the optional field with its default
      if it was left out. */
  lemma FieldsInPlace(fields: seq<string>, o: Options)
    requires NormalizedFields(fields, o).Ok?
    ensures var list := if |fields| == FieldsWanted(o) then fields
                        else if o.dowOptional then fields + ["*"] else ["0"] + fields;
            InPlace(list, NormalizedFields(fields, o).value, ["0", "0", "0", "*", "*", "*"],
                    o.second || o.secondOptional, o.minute, o.hour, o.dom, o.month, o.dow || o.dowOptional)
  {
    var places := Enabled(NormalizeOptions(o).value);
    hide CountTrue, Expand, InPlace;
    ExpandedList(fields, o);
    hide NormalizedFields, NormalizeOptions, FieldsWanted;
    var list := if |fields| == FieldsWanted(o) then fields
                else if o.dowOptional then fields + ["*"] else ["0"] + fields;
    ExpandSix(list, places, DEFAULTS);
  }

  /** What is expanded is the list with the optional field in it. */
  lemma ExpandedList(fields: seq<string>, o: Options)
    requires NormalizedFields(fields, o).Ok?
    ensures var list := if |fields| == FieldsWanted(o) then fields
                        else if o.dowOptional then fields + ["*"] else ["0"] + fields;
            && NormalizeOptions(o).Ok? && |list| == CountTrue(Enabled(NormalizeOptions(o).value))
            && NormalizedFields(fields, o) == Ok(Expand(list, Enabled(NormalizeOptions(o).value), DEFAULTS))
  {
    PlacesWanted(o);
    NormalizeAccepts(fields, o);
    hide CountTrue, Expand, Enabled, FieldsWanted;
  }

  lemma ExpandSix(list: seq<string>, places: seq<bool>, defaults: seq<string>)
    requires |places| == |defaults| == 6 && |list| == CountTrue(places)
    ensures InPlace(list, Expand(list, places, defaults), defaults,
                    places[0], places[1], places[2], places[3], places[4], places[5])
  {
    hide CountTrue, Expand, UpTo, Bit, Placed, InPlace;
    PlaceOf(list, places, defaults, 0);
    PlaceOf(list, places, defaults, 1);
    PlaceOf(list, places, defaults, 2);
    PlaceOf(list, places, defaults, 3);
    PlaceOf(list, places, defaults, 4);
    PlaceOf(list, places, defaults, 5);
    CountUpTo(places, 6);
    assert places[..6] == places;
    AllPlaced(list, Expand(list, places, defaults), defaults, places, UpTo(places, 1), UpTo(places, 2),
              UpTo(places, 3), UpTo(places, 4), UpTo(places, 5));
  }

  lemma AllPlaced(list: seq<string>, six: seq<string>, defaults: seq<string>, places: seq<bool>,
                  n1: nat, n2: nat, n3: nat, n4: nat, n5: nat)
    requires |six| == |defaults| == |places| == 6
    requires n1 == Bit(places[0]) && n2 == n1 + Bit(places[1]) && n3 == n2 + Bit(places[2])
    requires n4 == n3 + Bit(places[3]) && n5 == n4 + Bit(places[4]) && |list| == n5 + Bit(places[5])
    requires Placed(list, six[0], places[0], 0, defaults[0]) && Placed(list, six[1], places[1], n1, defaults[1])
    requires Placed(list, six[2], places[2], n2, defaults[2]) && Placed(list, six[3], places[3], n3, defaults[3])
    requires Placed(list, six[4], places[4], n4, defaults[4]) && Placed(list, six[5], places[5], n5, defaults[5])
    ensures InPlace(list, six, defaults, places[0], places[1], places[2], places[3], places[4], places[5])
  {
    hide Placed, Bit;
  }

  lemma PlaceOf(list: seq<string>, places: seq<bool>, defaults: seq<string>, i: nat)
    requires |places| == |defaults| && |list| == CountTrue(places) && i < |places|
    ensures UpTo(places, 0) == 0 && UpTo(places, i + 1) == UpTo(places, i) + Bit(places[i])
    ensures Placed(list, Expand(list, places, defaults)[i], places[i], UpTo(places, i), defaults[i])
  {
    hide CountTrue, Expand;
    CountUpTo(places, i);
    ExpandAt(list, places, defaults, i);
  }

  /** Leaving out the optional field means the same as writing its default in its place. */
  lemma OmittedOptionalIsDefault(fields: seq<string>, o: Options)
    requires OptionalCount(o) == 1 && |fields| == FieldsWanted(o) - 1
    ensures NormalizedFields(fields, o) ==
            NormalizedFields(if o.dowOptional then fields + ["*"] else ["0"] + fields, o)
  {
    PlacesWanted(o);
    hide CountTrue, Expand, Enabled;
  }

  // ---------- a whole specification ----------

  datatype SixFields = SixFields(second: Word, minute: Word, hour: Word, dom: Word, month: Word, dow: Word)

  function FieldOf(text: string, b: Bounds): Result<Word, ParseError> {
    FieldWord(Tokens(text, IsComma), b)
  }

  /** parser.go:346-386: six fields, or the first error. */
  function ScheduleOf(fields: seq<string>, location: Location): Result<SpecSchedule, ParseError>
    requires |fields| == 6
  {
    match FieldOf(fields[0], SECOND_BOUNDS) case Err(e) => Err(e) case Ok(second) =>
    match FieldOf(fields[1], MINUTE_BOUNDS) case Err(e) => Err(e) case Ok(minute) =>
    match FieldOf(fields[2], HOUR_BOUNDS) case Err(e) => Err(e) case Ok(hour) =>
    match FieldOf(fields[3], DOM_BOUNDS) case Err(e) => Err(e) case Ok(dom) =>
    match FieldOf(fields[4], MONTH_BOUNDS) case Err(e) => Err(e) case Ok(month) =>
    match FieldOf(fields[5], DOW_BOUNDS) case Err(e) => Err(e) case Ok(dow) =>
      Ok(SpecSchedule(second, minute, hour, dom, month, dow, location))
  }

  method ParseScheduleFields(fields: seq<string>, location: Location) returns (r: Result<SpecSchedule, ParseError>)
    requires |fields| == 6
    ensures r == ScheduleOf(fields, location)
  {
    var second := GetField(fields[0], SECOND_BOUNDS);
    if second.Err? { return Err(second.error); }
    var minute := GetField(fields[1], MINUTE_BOUNDS);
    if minute.Err? { return Err(minute.error); }
    var hour := GetField(fields[2], HOUR_BOUNDS);
    if hour.Err? { return Err(hour.error); }
    var dom := GetField(fields[3], DOM_BOUNDS);
    if dom.Err? { return Err(dom.error); }
    var month := GetField(fields[4], MONTH_BOUNDS);
    if month.Err? { return Err(month.error); }
    var dow := GetField(fields[5], DOW_BOUNDS);
    if dow.Err? { return Err(dow.error); }
    r := Ok(SpecSchedule(second.value, minute.value, hour.value, dom.value, month.value, dow.value, location));
  }

  /** What a specification is: six fields, or a descriptor left to its own table. */
  datatype Parsed = Six(schedule: SpecSchedule) | Descriptor(text: string, location: Location)

  /** parser.go:315-344; `load` is the zone database. */
  function ExtractLocation(spec: string, load: string -> Option<Location>): Result<(string, Location), ParseError> {
    if !("TZ=" <= spec) && !("CRON_TZ=" <= spec) then Ok((spec, Local))
    else
      var fields := Tokens(spec, IsSpace);
      if |fields| == 0 then Err(EmptySpec) else
      var eq := IndexOf(fields[0], '=');
      var name := if eq < |fields[0]| then fields[0][eq + 1..] else fields[0];
      if name == "" then Err(MissingLocationName)
      else if |fields| == 1 then Err(MissingLocationSpec)
      else match load(name)
        case None => Err(BadLocation)
        case Some(location) => Ok((Join(fields[1..], " "), location))
  }

  /** parser.go:135-165. */
  function ParseOf(spec: string, o: Options, load: string -> Option<Location>): Result<Parsed, ParseError> {
    if spec == "" then Err(EmptySpec)
    else match ExtractLocation(spec, load)
      case Err(e) => Err(e)
      case Ok((rest, location)) =>
        if "@" <= rest then
          if o.descriptor then Ok(Descriptor(rest, location)) else Err(DescriptorNotAllowed)
        else match NormalizedFields(Tokens(rest, IsSpace), o)
          case Err(e) => Err(e)
          case Ok(fields) =>
            match ScheduleOf(fields, location)
            case Err(e) => Err(e)
            case Ok(schedule) => Ok(Six(schedule))
  }

  method Parse(spec: string, o: Options, load: string -> Option<Location>) returns (r: Result<Parsed, ParseError>)
    ensures r == ParseOf(spec, o, load)
  {
    hide Tokens, NormalizedFields, ScheduleOf, ExtractLocation;
    if |spec| == 0 {
      return Err(EmptySpec);
    }
    var extracted := ExtractLocation(spec, load);
    if extracted.Err? {
      return Err(extracted.error);
    }
    var (rest, location) := extracted.value;
    if "@" <= rest {
      if !o.descriptor {
        return Err(DescriptorNotAllowed);
      }
      return Ok(Descriptor(rest, location));
    }
    var fields := NormalizeFields(Tokens(rest, IsSpace), o);
    if fields.Err? {
      return Err(fields.error);
    }
    var schedule := ParseScheduleFields(fields.value, location);
    if schedule.Err? {
      return Err(schedule.error);
    }
    r := Ok(Six(schedule.value));
  }

  /** What every parsed schedule satisfies. */
  predicate ParsedSchedule(s: SpecSchedule) {
    && ParsedField(s.second, SECOND_BOUNDS) && ParsedField(s.minute, MINUTE_BOUNDS)
    && ParsedField(s.hour, HOUR_BOUNDS) && ParsedField(s.dom, DOM_BOUNDS)
    && ParsedField(s.month, MONTH_BOUNDS) && ParsedField(s.dow, DOW_BOUNDS)
  }

  lemma FieldOfIsParsed(text: string, b: Bounds)
    requires ValidBounds(b) && FieldOf(text, b).Ok?
    ensures ParsedField(FieldOf(text, b).value, b)
  {
    FieldIsParsedField(Tokens(text, IsComma), b);
  }

  lemma ParseGivesParsedSchedule(spec: string, o: Options, load: string -> Option<Location>)
    requires ParseOf(spec, o, load).Ok? && ParseOf(spec, o, load).value.Six?
    ensures ParsedSchedule(ParseOf(spec, o, load).value.schedule)
  {
    hide FieldOf, ParsedField, Tokens, NormalizedFields, ExtractLocation;
    var (rest, location) := ExtractLocation(spec, load).value;
    var fields := NormalizedFields(Tokens(rest, IsSpace), o).value;
    FieldOfIsParsed(fields[0], SECOND_BOUNDS);
    FieldOfIsParsed(fields[1], MINUTE_BOUNDS);
    FieldOfIsParsed(fields[2], HOUR_BOUNDS);
    FieldOfIsParsed(fields[3], DOM_BOUNDS);
    FieldOfIsParsed(fields[4], MONTH_BOUNDS);
    FieldOfIsParsed(fields[5], DOW_BOUNDS);
  }

  // ---------- what a specification means ----------

  /** The bounds of the six fields, in order. */
  function BoundsAt(k: nat): (b: Bounds)
    requires k < 6
    ensures ValidBounds(b)
  {
    [SECOND_BOUNDS, MINUTE_BOUNDS, HOUR_BOUNDS, DOM_BOUNDS, MONTH_BOUNDS, DOW_BOUNDS][k]
  }

  function WordAt(s: SpecSchedule, k: nat): Word
    requires k < 6
  {
    [s.second, s.minute, s.hour, s.dom, s.month, s.dow][k]
  }

  ghost predicate FieldsAccepted(fields: seq<string>)
    requires |fields| == 6
  {
    forall k | 0 <= k < 6 :: FieldAccepted(fields[k], BoundsAt(k))
  }

  /** A schedule says in each word what its text says. */
  ghost predicate ScheduleMeans(fields: seq<string>, s: SpecSchedule)
    requires |fields| == 6
  {
    forall k | 0 <= k < 6 :: FieldMeans(fields[k], BoundsAt(k), WordAt(s, k))
  }

  lemma ScheduleOfFields(fields: seq<string>, location: Location)
    requires |fields| == 6
    ensures ScheduleOf(fields, location).Ok? <==> forall k | 0 <= k < 6 :: FieldOf(fields[k], BoundsAt(k)).Ok?
    ensures ScheduleOf(fields, location).Ok? ==>
              var s := ScheduleOf(fields, location).value;
              s.location == location && forall k | 0 <= k < 6 :: FieldOf(fields[k], BoundsAt(k)) == Ok(WordAt(s, k))
  {
    hide FieldOf;
    assert BoundsAt(0) == SECOND_BOUNDS && BoundsAt(1) == MINUTE_BOUNDS && BoundsAt(2) == HOUR_BOUNDS;
    assert BoundsAt(3) == DOM_BOUNDS && BoundsAt(4) == MONTH_BOUNDS && BoundsAt(5) == DOW_BOUNDS;
  }

  /** Six fields are accepted exactly when every comma item of each stands for something within
      the bounds of its own place; the schedule then says in each word what the field says. */
  lemma ScheduleIsMeant(fields: seq<string>, location: Location)
    requires |fields| == 6
    ensures ScheduleOf(fields, location).Ok? <==> FieldsAccepted(fields)
    ensures ScheduleOf(fields, location).Ok? ==>
              ScheduleOf(fields, location).value.location == location &&
              ScheduleMeans(fields, ScheduleOf(fields, location).value)
  {
    ScheduleOfFields(fields, location);
    hide ScheduleOf, FieldAccepted, FieldMeans, WordAt, BoundsAt;
    forall k | 0 <= k < 6
      ensures FieldOf(fields[k], BoundsAt(k)).Ok? <==> FieldAccepted(fields[k], BoundsAt(k))
      ensures FieldOf(fields[k], BoundsAt(k)).Ok? ==>
                FieldMeans(fields[k], BoundsAt(k), FieldOf(fields[k], BoundsAt(k)).value)
    {
      FieldIsMeant(fields[k], BoundsAt(k));
    }
  }

  /** The white-space fields of a specification, after its zone prefix. */
  function FieldsOf(spec: string, load: string -> Option<Location>): seq<string>
    requires ExtractLocation(spec, load).Ok?
  {
    Tokens(ExtractLocation(spec, load).value.0, IsSpace)
  }

  /** What a caller can check of a specification that is to be read as six fields. */
  ghost predicate SpecAccepted(spec: string, o: Options, load: string -> Option<Location>) {
    && spec != "" && ExtractLocation(spec, load).Ok? && !("@" <= ExtractLocation(spec, load).value.0)
    && OptionalCount(o) <= 1
    && var fields := FieldsOf(spec, load);
       && FieldsWanted(o) - OptionalCount(o) <= |fields| <= FieldsWanted(o)
       && NormalizedFields(fields, o).Ok? && FieldsAccepted(NormalizedFields(fields, o).value)
  }

  /** A specification is read as a schedule exactly when it is not empty, its zone is known, it is
      no descriptor, the number of its fields fits the options, and each field is accepted; the
      schedule then has that zone and says what the fields say. */
  lemma ParseIsMeant(spec: string, o: Options, load: string -> Option<Location>)
    ensures ParseOf(spec, o, load).Ok? && ParseOf(spec, o, load).value.Six? <==> SpecAccepted(spec, o, load)
    ensures SpecAccepted(spec, o, load) ==>
              var s := ParseOf(spec, o, load).value.schedule;
              && s.location == ExtractLocation(spec, load).value.1
              && ScheduleMeans(NormalizedFields(FieldsOf(spec, load), o).value, s)
  {
    hide ExtractLocation, Tokens, ScheduleOf, FieldsAccepted, ScheduleMeans, NormalizedFields, FieldsWanted;
    if spec != "" && ExtractLocation(spec, load).Ok? {
      var (rest, location) := ExtractLocation(spec, load).value;
      var fields := Tokens(rest, IsSpace);
      NormalizeAccepts(fields, o);
      if NormalizedFields(fields, o).Ok? {
        ScheduleIsMeant(NormalizedFields(fields, o).value, location);
      }
    }
  }

  // ---------- which specifications select something in every field ----------

  predicate AllFieldsNonEmpty(s: SpecSchedule) {
    && NonEmpty(s.second, SECOND_BOUNDS) && NonEmpty(s.minute, MINUTE_BOUNDS)
    && NonEmpty(s.hour, HOUR_BOUNDS) && NonEmpty(s.dom, DOM_BOUNDS)
    && NonEmpty(s.month, MONTH_BOUNDS) && NonEmpty(s.dow, DOW_BOUNDS)
  }

  lemma NonEmptyAt(s: SpecSchedule)
    ensures AllFieldsNonEmpty(s) <==> forall k | 0 <= k < 6 :: NonEmpty(WordAt(s, k), BoundsAt(k))
  {
    hide NonEmpty;
    assert WordAt(s, 0) == s.second && WordAt(s, 1) == s.minute && WordAt(s, 2) == s.hour;
    assert WordAt(s, 3) == s.dom && WordAt(s, 4) == s.month && WordAt(s, 5) == s.dow;
    assert BoundsAt(0) == SECOND_BOUNDS && BoundsAt(1) == MINUTE_BOUNDS && BoundsAt(2) == HOUR_BOUNDS;
    assert BoundsAt(3) == DOM_BOUNDS && BoundsAt(4) == MONTH_BOUNDS && BoundsAt(5) == DOW_BOUNDS;
  }

  predicate AllBesidesCommas(texts: seq<string>) {
    forall k | 0 <= k < |texts| :: BesidesCommas(texts[k])
  }

  lemma AllBesidesCommasJoin(a: seq<string>, b: seq<string>)
    ensures AllBesidesCommas(a + b) <==> AllBesidesCommas(a) && AllBesidesCommas(b)
  {
    hide BesidesCommas;
    if AllBesidesCommas(a + b) {
      forall k | 0 <= k < |a| ensures BesidesCommas(a[k]) { assert (a + b)[k] == a[k]; }
      forall k | 0 <= k < |b| ensures BesidesCommas(b[k]) { assert (a + b)[|a| + k] == b[k]; }
    }
  }

  lemma {:induction false} ExpandBesidesCommas(fields: seq<string>, places: seq<bool>, defaults: seq<string>)
    requires |places| == |defaults| && |fields| == CountTrue(places) && AllBesidesCommas(defaults)
    ensures AllBesidesCommas(Expand(fields, places, defaults)) <==> AllBesidesCommas(fields)
  {
    hide BesidesCommas;
    if places != [] {
      AllBesidesCommasJoin([defaults[0]], defaults[1..]);
      assert [defaults[0]] + defaults[1..] == defaults;
      if places[0] {
        ExpandBesidesCommas(fields[1..], places[1..], defaults[1..]);
        AllBesidesCommasJoin([fields[0]], fields[1..]);
        AllBesidesCommasJoin([fields[0]], Expand(fields[1..], places[1..], defaults[1..]));
        assert [fields[0]] + fields[1..] == fields;
      } else {
        ExpandBesidesCommas(fields, places[1..], defaults[1..]);
        AllBesidesCommasJoin([defaults[0]], Expand(fields, places[1..], defaults[1..]));
      }
    }
  }

  lemma NormalizedBesidesCommas(fields: seq<string>, o: Options)
    requires NormalizedFields(fields, o).Ok?
    ensures AllBesidesCommas(NormalizedFields(fields, o).value) <==> AllBesidesCommas(fields)
  {
    var normalized := NormalizeOptions(o).value;
    var maxFields := CountTrue(Enabled(normalized));
    var populated := PopulateOptionalField(fields, normalized, maxFields - OptionalCount(o), maxFields).value;
    assert |populated| == maxFields;
    assert populated == fields || populated == fields + [DEFAULTS[5]] || populated == [DEFAULTS[0]] + fields;
    assert NormalizedFields(fields, o) == Ok(Expand(populated, Enabled(normalized), DEFAULTS));
    DefaultsBesidesCommas();
    hide AllBesidesCommas, NormalizedFields, Expand, CountTrue;
    ExpandBesidesCommas(populated, Enabled(normalized), DEFAULTS);
    AllBesidesCommasJoin(fields, [DEFAULTS[5]]);
    AllBesidesCommasJoin([DEFAULTS[0]], fields);
  }

  lemma DefaultsBesidesCommas()
    ensures AllBesidesCommas(DEFAULTS) && AllBesidesCommas([DEFAULTS[0]]) && AllBesidesCommas([DEFAULTS[5]])
  {
    forall k | 0 <= k < 6 ensures BesidesCommas(DEFAULTS[k]) { assert DEFAULTS[k][0] != ','; }
  }

  lemma FieldOfSelectsSomething(text: string, b: Bounds)
    requires ValidBounds(b) && FieldOf(text, b).Ok?
    ensures NonEmpty(FieldOf(text, b).value, b) <==> BesidesCommas(text)
  {
    hide FieldWord, Tokens, NonEmpty, BesidesCommas;
    FieldSelectsSomething(text, b);
  }

  /** Six accepted fields select something each exactly when each has something besides commas. */
  lemma ScheduleSelectsSomething(fields: seq<string>, location: Location)
    requires |fields| == 6 && ScheduleOf(fields, location).Ok?
    ensures AllFieldsNonEmpty(ScheduleOf(fields, location).value) <==> AllBesidesCommas(fields)
  {
    hide FieldOf, ScheduleOf, NonEmpty, BesidesCommas, WordAt, BoundsAt, AllFieldsNonEmpty, ValidBounds;
    var s := ScheduleOf(fields, location).value;
    ScheduleOfFields(fields, location);
    NonEmptyAt(s);
    forall k | 0 <= k < 6 ensures NonEmpty(WordAt(s, k), BoundsAt(k)) <==> BesidesCommas(fields[k]) {
      FieldOfSelectsSomething(fields[k], BoundsAt(k));
    }
  }

  /** A parsed schedule selects something in every field exactly when each field that was written
      has something in it besides commas. */
  lemma SpecSelectsSomething(spec: string, o: Options, load: string -> Option<Location>)
    requires ParseOf(spec, o, load).Ok? && ParseOf(spec, o, load).value.Six?
    ensures ExtractLocation(spec, load).Ok?
    ensures AllFieldsNonEmpty(ParseOf(spec, o, load).value.schedule) <==> AllBesidesCommas(FieldsOf(spec, load))
  {
    hide ExtractLocation, Tokens, ScheduleOf, NormalizedFields, AllFieldsNonEmpty, AllBesidesCommas;
    var (rest, location) := ExtractLocation(spec, load).value;
    NormalizedBesidesCommas(Tokens(rest, IsSpace), o);
    ScheduleSelectsSomething(NormalizedFields(Tokens(rest, IsSpace), o).value, location);
  }

  // ---------- the day rule on a parsed schedule ----------

  /** With a star in Dow the day of the month decides alone, with a star in Dom the weekday, and
      without a star either is enough. */
  lemma ParsedDayRule(s: SpecSchedule, t: int)
    requires ParsedSchedule(s)
    ensures Starred(s.dow) ==> (DayMatches(s, t) <==> HasBit(s.dom, Day(t)))
    ensures Starred(s.dom) ==> (DayMatches(s, t) <==> HasBit(s.dow, Weekday(t)))
    ensures !Starred(s.dom) && !Starred(s.dow) ==>
              (DayMatches(s, t) <==> HasBit(s.dom, Day(t)) || HasBit(s.dow, Weekday(t)))
  {
    hide HasBit, Starred, Day, Weekday;
    StarredIsBit63(s.dom);
    StarredIsBit63(s.dow);
    HasBitReads(s.dom, Day(t));
    HasBitReads(s.dow, Weekday(t));
  }
}
