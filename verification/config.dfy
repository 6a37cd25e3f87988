/**
 * Application configuration (include/config.h, src/config.cpp): four fields
 * with compiled-in defaults, overridden from the process environment and then
 * validated field by field. The environment is a map from variable name to
 * value; `std::stof` is the caller's `parseFloat` (None where it throws), while
 * `std::stoi` is modelled exactly on decimal text.
 */
module Config {
  import opened Wrappers

  /** `std::getenv`: the variables that are set, with their values. */
  type Env = map<string, string>

  /** `std::stof` on a whole value: the float, or None where it throws. */
  type FloatParser = string -> Option<real>

  /** Range of the C++ `int` that `std::stoi` returns. */
  const IntMin: int := -0x8000_0000
  const IntMax: int := 0x7FFF_FFFF

  const DefaultMaxDetections: int := 25
  const DefaultConfThresh: real := 0.5
  const DefaultIouThresh: real := 0.3
  const DefaultModelPath: string := "assets/models/blaze.onnx"

  datatype AppConfig = AppConfig(
    maxDetections: int,
    confThresh: real,
    iouThresh: real,
    modelPath: string)

  /** A default-constructed AppConfig. */
  function Defaults(): AppConfig {
    AppConfig(DefaultMaxDetections, DefaultConfThresh, DefaultIouThresh, DefaultModelPath)
  }

  // ---------------------------------------------------------------------------
  // std::stoi on base-10 text
  // ---------------------------------------------------------------------------

  /** The characters `isspace` accepts in the C locale. */
  predicate IsSpace(ch: char) {
    ch == ' ' || ch == '\t' || ch == '\n' || ch == '\U{B}' || ch == '\U{C}' || ch == '\r'
  }

  predicate IsDigit(ch: char) {
    '0' <= ch <= '9'
  }

  function DigitValue(ch: char): nat
    requires IsDigit(ch)
  {
    (ch as int - '0' as int) as nat
  }

  function DigitChar(d: nat): (ch: char)
    requires d < 10
    ensures IsDigit(ch) && DigitValue(ch) == d
  {
    ('0' as int + d) as char
  }

  /** The text with its leading white space skipped. */
  function SkipSpace(s: string): (r: string)
    ensures |r| <= |s| && r == s[|s| - |r|..]
    ensures r != [] ==> !IsSpace(r[0])
    ensures forall i :: 0 <= i < |s| - |r| ==> IsSpace(s[i])
  {
    if s != [] && IsSpace(s[0]) then SkipSpace(s[1..]) else s
  }

  /** The longest prefix made of decimal digits. */
  function DigitRun(s: string): (r: string)
    ensures |r| <= |s| && r == s[..|r|]
    ensures forall i :: 0 <= i < |r| ==> IsDigit(r[i])
    ensures |r| < |s| ==> !IsDigit(s[|r|])
  {
    if s != [] && IsDigit(s[0]) then [s[0]] + DigitRun(s[1..]) else []
  }

  /** The number a string of decimal digits denotes, most significant first. */
  function Value(ds: string): nat
    requires forall i :: 0 <= i < |ds| ==> IsDigit(ds[i])
  {
    if ds == [] then 0 else Value(ds[..|ds| - 1]) * 10 + DigitValue(ds[|ds| - 1])
  }

  /**
   * `std::stoi(s)`: leading white space is skipped, one optional sign is read,
   * then the longest run of digits; anything after it is ignored. No digit
   * throws `invalid_argument`, a value outside `int` throws `out_of_range`;
   * both are None here.
   */
  function StoI(s: string): (r: Option<int>)
    ensures r.Some? ==> IntMin <= r.value <= IntMax
  {
    ReadSigned(SkipSpace(s))
  }

  /** The part of `std::stoi` after the white space: sign, digits and range check. */
  function ReadSigned(t: string): (r: Option<int>)
    ensures r.Some? ==> IntMin <= r.value <= IntMax
  {
    var negative := t != [] && t[0] == '-';
    var unsigned := if t != [] && (t[0] == '-' || t[0] == '+') then t[1..] else t;
    var ds := DigitRun(unsigned);
    if ds == [] then None
    else
      var v: int := if negative then -(Value(ds) as int) else Value(ds);
      if IntMin <= v <= IntMax then Some(v) else None
  }

  /** Decimal text of a natural number, without leading zeros. */
  function NatText(n: nat): (r: string)
    ensures r != []
    ensures forall i :: 0 <= i < |r| ==> IsDigit(r[i])
  {
    if n < 10 then [DigitChar(n)] else NatText(n / 10) + [DigitChar(n % 10)]
  }

  /** Decimal text of an integer, as `std::to_string` writes it. */
  function IntText(n: int): string {
    if n < 0 then "-" + NatText(-n) else NatText(n)
  }

  /** The digits of a natural number denote that number. */
  lemma {:induction false} ValueOfNatText(n: nat)
    ensures Value(NatText(n)) == n
  {
    var r := NatText(n);
    if n >= 10 {
      assert r[..|r| - 1] == NatText(n / 10);
      ValueOfNatText(n / 10);
    }
  }

  /** A string of digits is its own digit run. */
  lemma {:induction false} DigitRunOfDigits(ds: string)
    requires forall i :: 0 <= i < |ds| ==> IsDigit(ds[i])
    ensures DigitRun(ds) == ds
  {
    DigitRunAppend(ds, []);
    assert ds + [] == ds;
  }

  /** The digit run of digits followed by a non-digit is those digits. */
  lemma {:induction false} DigitRunAppend(ds: string, tail: string)
    requires forall i :: 0 <= i < |ds| ==> IsDigit(ds[i])
    requires tail == [] || !IsDigit(tail[0])
    ensures DigitRun(ds + tail) == ds
  {
    if ds != [] {
      DigitRunAppend(ds[1..], tail);
      assert (ds + tail)[1..] == ds[1..] + tail;
      assert ds == [ds[0]] + ds[1..];
    }
  }

  /** Text that does not start with white space is left as it is by the skip. */
  lemma {:induction false} SkipNoSpace(s: string)
    requires s == [] || !IsSpace(s[0])
    ensures SkipSpace(s) == s
  {
  }

  /** `std::stoi` reads back every `int` written in decimal. */
  lemma {:induction false} StoIRoundTrip(n: int)
    requires IntMin <= n <= IntMax
    ensures StoI(IntText(n)) == Some(n)
  {
    StoIRoundTripWithTail(n, []);
    assert IntText(n) + [] == IntText(n);
  }

  /** Reading stops at the first character after the digits. */
  lemma {:induction false} StoIRoundTripWithTail(n: int, tail: string)
    requires IntMin <= n <= IntMax
    requires tail == [] || !IsDigit(tail[0])
    ensures StoI(IntText(n) + tail) == Some(n)
  {
    var m: nat := if n < 0 then -n else n;
    var digits := NatText(m);
    ValueOfNatText(m);
    var s := IntText(n) + tail;
    ReadSignedParts(s, n < 0, digits, tail);
    SkipNoSpace(s);
  }

  /** What the sign-and-digits reader returns for an optional minus, digits and a non-digit tail. */
  lemma {:induction false} ReadSignedParts(t: string, negative: bool, ds: string, tail: string)
    requires ds != [] && forall i :: 0 <= i < |ds| ==> IsDigit(ds[i])
    requires tail == [] || !IsDigit(tail[0])
    requires t == (if negative then "-" else "") + ds + tail
    ensures t != [] && !IsSpace(t[0])
    ensures var v: int := if negative then -(Value(ds) as int) else Value(ds);
      ReadSigned(t) == if IntMin <= v <= IntMax then Some(v) else None
  {
    if negative {
      assert t == ['-'] + (ds + tail);
      ReadNegative(ds, tail);
    } else {
      assert t == ds + tail;
      ReadUnsigned(ds, tail);
    }
  }

  lemma {:induction false} ReadNegative(ds: string, tail: string)
    requires ds != [] && forall i :: 0 <= i < |ds| ==> IsDigit(ds[i])
    requires tail == [] || !IsDigit(tail[0])
    ensures var v: int := -(Value(ds) as int);
      ReadSigned(['-'] + (ds + tail)) == if IntMin <= v then Some(v) else None
  {
    DigitRunAppend(ds, tail);
    var t := ['-'] + (ds + tail);
    assert t[0] == '-' && t[1..] == ds + tail;
  }

  lemma {:induction false} ReadUnsigned(ds: string, tail: string)
    requires ds != [] && forall i :: 0 <= i < |ds| ==> IsDigit(ds[i])
    requires tail == [] || !IsDigit(tail[0])
    ensures (ds + tail)[0] == ds[0]
    ensures ReadSigned(ds + tail) == if Value(ds) <= IntMax then Some(Value(ds) as int) else None
  {
    DigitRunAppend(ds, tail);
    assert (ds + tail)[0] == ds[0];
  }

  /** Leading white space and trailing text do not change what `std::stoi` reads. */
  lemma {:induction false} StoIIgnoresPadding(ws: string, n: int, tail: string)
    requires forall i :: 0 <= i < |ws| ==> IsSpace(ws[i])
    requires IntMin <= n <= IntMax
    requires tail == [] || !IsDigit(tail[0])
    ensures StoI(ws + (IntText(n) + tail)) == Some(n)
  {
    StoIRoundTripWithTail(n, tail);
    StoISkipsSpace(ws, IntText(n) + tail);
  }

  lemma {:induction false} StoISkipsSpace(ws: string, s: string)
    requires forall i :: 0 <= i < |ws| ==> IsSpace(ws[i])
    ensures StoI(ws + s) == StoI(s)
  {
    SkipSpacePrefix(ws, s);
  }

  /** A prefix made only of white space is skipped entirely. */
  lemma {:induction false} SkipSpacePrefix(ws: string, s: string)
    requires forall i :: 0 <= i < |ws| ==> IsSpace(ws[i])
    ensures SkipSpace(ws + s) == SkipSpace(s)
    decreases |ws|
  {
    if ws == [] {
      assert ws + s == s;
    } else {
      assert (ws + s)[0] == ws[0] && IsSpace(ws[0]);
      assert (ws + s)[1..] == ws[1..] + s;
      assert SkipSpace(ws + s) == SkipSpace(ws[1..] + s);
      SkipSpacePrefix(ws[1..], s);
    }
  }

  // ---------------------------------------------------------------------------
  // Environment lookups and validation
  // ---------------------------------------------------------------------------

  /** `getIntEnv`: the parsed variable when it is set and parses, else the fallback. */
  function GetIntEnv(env: Env, name: string, fallback: int): (r: int)
    ensures name !in env ==> r == fallback
    ensures name in env && StoI(env[name]).None? ==> r == fallback
    ensures name in env && StoI(env[name]).Some? ==> r == StoI(env[name]).value
  {
    if name in env then
      match StoI(env[name])
      case Some(v) => v
      case None => fallback
    else fallback
  }

  /** `getFloatEnv`: the parsed variable when it is set and parses, else the fallback. */
  function GetFloatEnv(env: Env, name: string, fallback: real, parseFloat: FloatParser): (r: real)
    ensures name !in env ==> r == fallback
    ensures name in env && parseFloat(env[name]).None? ==> r == fallback
    ensures name in env && parseFloat(env[name]).Some? ==> r == parseFloat(env[name]).value
  {
    if name in env then
      match parseFloat(env[name])
      case Some(v) => v
      case None => fallback
    else fallback
  }

  predicate MaxDetectionsOk(n: int) { 0 < n <= 1000 }
  predicate ConfThreshOk(x: real) { 0.0 < x <= 1.0 }
  predicate IouThreshOk(x: real) { 0.0 <= x <= 1.0 }

  /** A configuration every field of which passes the checks of `loadFromEnv`. */
  predicate InRange(c: AppConfig) {
    MaxDetectionsOk(c.maxDetections) && ConfThreshOk(c.confThresh) && IouThreshOk(c.iouThresh)
  }

  /**
   * `AppConfig::loadFromEnv`: each numeric field is read from its variable
   * (keeping the current value when unset or unparsable) and replaced by its
   * fixed fallback when out of range; the model path is taken from a set,
   * non-empty MODEL_PATH.
   */
  function LoadFromEnv(c: AppConfig, env: Env, parseFloat: FloatParser): (r: AppConfig)
    ensures InRange(r)
    ensures var m := GetIntEnv(env, "MAX_DETECTIONS", c.maxDetections);
      r.maxDetections == (if MaxDetectionsOk(m) then m else 25)
    ensures var x := GetFloatEnv(env, "CONF_THRESH", c.confThresh, parseFloat);
      r.confThresh == (if ConfThreshOk(x) then x else 0.5)
    ensures var x := GetFloatEnv(env, "IOU_THRESH", c.iouThresh, parseFloat);
      r.iouThresh == (if IouThreshOk(x) then x else 0.3)
    ensures r.modelPath != c.modelPath ==> "MODEL_PATH" in env && env["MODEL_PATH"] != ""
    ensures "MODEL_PATH" in env && env["MODEL_PATH"] != "" ==> r.modelPath == env["MODEL_PATH"]
  {
    var m := GetIntEnv(env, "MAX_DETECTIONS", c.maxDetections);
    var maxDetections := if m <= 0 || m > 1000 then DefaultMaxDetections else m;
    var conf := GetFloatEnv(env, "CONF_THRESH", c.confThresh, parseFloat);
    var confThresh := if conf <= 0.0 || conf > 1.0 then DefaultConfThresh else conf;
    var iou := GetFloatEnv(env, "IOU_THRESH", c.iouThresh, parseFloat);
    var iouThresh := if iou < 0.0 || iou > 1.0 then DefaultIouThresh else iou;
    var modelPath :=
      if "MODEL_PATH" in env && env["MODEL_PATH"] != "" then env["MODEL_PATH"] else c.modelPath;
    AppConfig(maxDetections, confThresh, iouThresh, modelPath)
  }

  /** The compiled-in defaults pass every check. */
  lemma DefaultsInRange()
    ensures InRange(Defaults())
    ensures Defaults().modelPath == "assets/models/blaze.onnx"
  {
  }

  /** With nothing set in the environment, a default-constructed config is left as it is. */
  lemma DefaultsFixedPoint(parseFloat: FloatParser)
    ensures LoadFromEnv(Defaults(), map[], parseFloat) == Defaults()
  {
  }

  /** With nothing relevant set, an in-range config is unchanged; an out-of-range field gets its fallback. */
  lemma UnsetKeepsValid(c: AppConfig, env: Env, parseFloat: FloatParser)
    requires "MAX_DETECTIONS" !in env && "CONF_THRESH" !in env
    requires "IOU_THRESH" !in env && "MODEL_PATH" !in env
    ensures InRange(c) ==> LoadFromEnv(c, env, parseFloat) == c
    ensures !MaxDetectionsOk(c.maxDetections) ==> LoadFromEnv(c, env, parseFloat).maxDetections == 25
  {
  }

  /** Loading twice from the same environment gives what loading once gives. */
  lemma LoadFromEnvIdempotent(c: AppConfig, env: Env, parseFloat: FloatParser)
    ensures var once := LoadFromEnv(c, env, parseFloat);
      LoadFromEnv(once, env, parseFloat) == once
  {
    var once := LoadFromEnv(c, env, parseFloat);
    var twice := LoadFromEnv(once, env, parseFloat);
    assert twice.maxDetections == once.maxDetections;
    assert twice.confThresh == once.confThresh;
    assert twice.iouThresh == once.iouThresh;
    assert twice.modelPath == once.modelPath;
  }

  /** A confidence threshold of 0 is rejected, an IoU threshold of 0 accepted. */
  lemma ZeroThresholds(c: AppConfig, env: Env, parseFloat: FloatParser)
    requires "CONF_THRESH" in env && parseFloat(env["CONF_THRESH"]) == Some(0.0)
    requires "IOU_THRESH" in env && parseFloat(env["IOU_THRESH"]) == Some(0.0)
    ensures LoadFromEnv(c, env, parseFloat).confThresh == 0.5
    ensures LoadFromEnv(c, env, parseFloat).iouThresh == 0.0
  {
  }

  /** A MAX_DETECTIONS written in range is taken verbatim; one out of range yields 25. */
  lemma MaxDetectionsFromText(c: AppConfig, env: Env, parseFloat: FloatParser, n: int)
    requires IntMin <= n <= IntMax
    requires "MAX_DETECTIONS" in env && env["MAX_DETECTIONS"] == IntText(n)
    ensures 1 <= n <= 1000 ==> LoadFromEnv(c, env, parseFloat).maxDetections == n
    ensures !(1 <= n <= 1000) ==> LoadFromEnv(c, env, parseFloat).maxDetections == 25
  {
    StoIRoundTrip(n);
  }
}
