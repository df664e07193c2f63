/**
 * The bottle scale's settings view: a form with the API address and the CO2 weight of a
 * full bottle, a button that saves both into the shared context and a button that tares
 * the scale. A CO2 entry is posted to the scale when JavaScript reads it as a number. Once
 * the scale has answered, the code as written keeps whatever the CO2 field holds at that
 * moment; the corrected form keeps the posted entry.
 */
module ScaleSettings {
  import opened Wrappers
  import opened ScaleContexts

  /** The white space `Number()` strips from a string: the ASCII spaces, the no-break
      space, the byte order mark and the two Unicode line terminators. */
  predicate IsWhiteSpace(c: char) {
    c == ' ' || c == '\t' || c == '\n' || c == '\r' || c == '\U{0B}' || c == '\U{0C}' ||
    c == '\U{A0}' || c == '\U{FEFF}' || c == '\U{2028}' || c == '\U{2029}'
  }

  function TrimStart(s: string): (r: string)
    ensures |r| <= |s| && r == s[|s| - |r|..]
    ensures r != [] ==> !IsWhiteSpace(r[0])
    ensures forall i :: 0 <= i < |s| - |r| ==> IsWhiteSpace(s[i])
  {
    if s != [] && IsWhiteSpace(s[0]) then
      var r := TrimStart(s[1..]);
      assert forall i :: 1 <= i < |s| - |r| ==> s[i] == s[1..][i - 1];
      r
    else s
  }

  function TrimEnd(s: string): (r: string)
    ensures |r| <= |s| && r == s[..|r|]
    ensures r != [] ==> !IsWhiteSpace(r[|r| - 1])
    ensures forall i :: |r| <= i < |s| ==> IsWhiteSpace(s[i])
  {
    if s != [] && IsWhiteSpace(s[|s| - 1]) then TrimEnd(s[..|s| - 1]) else s
  }

  /** The text between the leading and the trailing white space. */
  function Trim(s: string): (r: string)
    ensures r != [] ==> !IsWhiteSpace(r[0]) && !IsWhiteSpace(r[|r| - 1])
  {
    var u := TrimStart(s);
    var r := TrimEnd(u);
    assert r != [] ==> r[0] == u[0];
    r
  }

  /** Trimming keeps every visible character of the text. */
  lemma TrimKeepsVisible(s: string, i: nat)
    requires i < |s| && !IsWhiteSpace(s[i])
    ensures s[i] in Trim(s)
  {
    var u := TrimStart(s);
    var r := TrimEnd(u);
    var j := i - (|s| - |u|);
    assert u[j] == s[i];
    assert r[j] == u[j];
  }

  predicate IsDecimalDigit(c: char) {
    '0' as int <= c as int <= '9' as int
  }

  predicate IsHexDigit(c: char) {
    IsDecimalDigit(c) || 'a' as int <= c as int <= 'f' as int || 'A' as int <= c as int <= 'F' as int
  }

  predicate IsOctalDigit(c: char) {
    '0' as int <= c as int <= '7' as int
  }

  predicate IsBinaryDigit(c: char) {
    c == '0' || c == '1'
  }

  predicate DecimalDigits(s: string) {
    forall i :: 0 <= i < |s| ==> IsDecimalDigit(s[i])
  }

  /** The first position holding `a` or `b`. */
  function IndexOfEither(s: string, a: char, b: char): (r: Option<nat>)
    ensures r.Some? ==> r.value < |s| && (s[r.value] == a || s[r.value] == b)
    ensures r.Some? ==> forall i :: 0 <= i < r.value ==> s[i] != a && s[i] != b
    ensures r.None? ==> forall i :: 0 <= i < |s| ==> s[i] != a && s[i] != b
  {
    if s == [] then None
    else if s[0] == a || s[0] == b then Some(0)
    else match IndexOfEither(s[1..], a, b)
      case None =>
        assert forall i :: 1 <= i < |s| ==> s[i] == s[1..][i - 1];
        None
      case Some(i) => Some(i + 1)
  }

  /** Decimal digits with at most one decimal point and at least one digit: `12`, `1.`,
      `.5`, `1.5`. */
  predicate Mantissa(m: string) {
    match IndexOfEither(m, '.', '.')
    case None => m != [] && DecimalDigits(m)
    case Some(i) => |m| >= 2 && DecimalDigits(m[..i]) && DecimalDigits(m[i + 1..])
  }

  predicate IsSign(c: char) {
    c == '+' || c == '-'
  }

  /** An exponent's digits, optionally signed. */
  predicate SignedInteger(e: string) {
    if e != [] && IsSign(e[0]) then e[1..] != [] && DecimalDigits(e[1..])
    else e != [] && DecimalDigits(e)
  }

  predicate UnsignedDecimal(u: string) {
    u == "Infinity" ||
    match IndexOfEither(u, 'e', 'E')
    case None => Mantissa(u)
    case Some(k) => Mantissa(u[..k]) && SignedInteger(u[k + 1..])
  }

  /** A decimal literal with an optional sign, or `Infinity`. */
  predicate DecimalLiteral(t: string) {
    if t != [] && IsSign(t[0]) then UnsignedDecimal(t[1..]) else UnsignedDecimal(t)
  }

  /** `0x`, `0o` and `0b` literals, which take no sign. */
  predicate NonDecimalLiteral(t: string) {
    |t| >= 3 && t[0] == '0' &&
    ((t[1] in "xX" && forall i :: 2 <= i < |t| ==> IsHexDigit(t[i])) ||
     (t[1] in "oO" && forall i :: 2 <= i < |t| ==> IsOctalDigit(t[i])) ||
     (t[1] in "bB" && forall i :: 2 <= i < |t| ==> IsBinaryDigit(t[i])))
  }

  /** Trimmed text that `Number()` reads as a number; blank text reads as 0. */
  predicate NumericLiteral(t: string) {
    t == [] || DecimalLiteral(t) || NonDecimalLiteral(t)
  }

  /** The strings `isNaN` accepts: `Number()` of them is not `NaN`. */
  predicate IsNumericText(s: string) {
    NumericLiteral(Trim(s))
  }

  /** Every non-empty run of decimal digits is a number. */
  lemma DigitsAreNumeric(s: string)
    requires s != [] && DecimalDigits(s)
    ensures IsNumericText(s)
  {
    assert IsDecimalDigit(s[0]) && IsDecimalDigit(s[|s| - 1]);
    assert TrimStart(s) == s;
    assert TrimEnd(s) == s;
    assert Trim(s) == s;
    assert s != "Infinity" by {
      assert s[0] != 'I';
    }
    assert IndexOfEither(s, 'e', 'E').None? by {
      forall i | 0 <= i < |s| ensures s[i] != 'e' && s[i] != 'E' {
        assert IsDecimalDigit(s[i]);
      }
    }
    assert IndexOfEither(s, '.', '.').None? by {
      forall i | 0 <= i < |s| ensures s[i] != '.' {
        assert IsDecimalDigit(s[i]);
      }
    }
    assert Mantissa(s);
  }

  /** Text whose first visible character cannot start a number is refused. */
  lemma LetterFirstIsRefused(s: string)
    requires Trim(s) != []
    requires var c := Trim(s)[0]; !IsDecimalDigit(c) && !IsSign(c) && c != '.' && c != 'I'
    ensures !IsNumericText(s)
  {
    var t := Trim(s);
    assert t != "Infinity";
    match IndexOfEither(t, 'e', 'E')
    case None =>
      MantissaStartsWithDigitOrPoint(t);
    case Some(k) =>
      if k > 0 {
        assert t[..k][0] == t[0];
        MantissaStartsWithDigitOrPoint(t[..k]);
      }
  }

  lemma MantissaStartsWithDigitOrPoint(m: string)
    requires m != [] && !IsDecimalDigit(m[0]) && m[0] != '.'
    ensures !Mantissa(m)
  {
    match IndexOfEither(m, '.', '.')
    case None =>
    case Some(i) =>
      assert m[..i][0] == m[0];
  }

  lemma {:induction false} TrimStartAppend(s: string, c: char)
    ensures TrimStart(s + [c]) == if TrimStart(s) == [] then TrimStart([c]) else TrimStart(s) + [c]
  {
    if s == [] {
      assert s + [c] == [c];
    } else if IsWhiteSpace(s[0]) {
      assert (s + [c])[0] == s[0];
      assert (s + [c])[1..] == s[1..] + [c];
      assert TrimStart(s + [c]) == TrimStart(s[1..] + [c]);
      assert TrimStart(s) == TrimStart(s[1..]);
      TrimStartAppend(s[1..], c);
    } else {
      assert (s + [c])[0] == s[0];
      assert TrimStart(s) == s;
    }
  }

  lemma LeadingSpaceIsTrimmed(s: string)
    ensures TrimStart([' '] + s) == TrimStart(s)
  {
    assert ([' '] + s)[1..] == s;
  }

  lemma TrailingSpaceIsTrimmed(s: string)
    ensures TrimEnd(s + [' ']) == TrimEnd(s)
  {
    assert (s + [' '])[..|s|] == s;
  }

  /** Spaces typed around an entry leave the same text after trimming. */
  lemma PaddedTrim(s: string)
    ensures Trim([' '] + s + [' ']) == Trim(s)
  {
    assert [' '] + s + [' '] == [' '] + (s + [' ']);
    LeadingSpaceIsTrimmed(s + [' ']);
    TrimStartAppend(s, ' ');
    if TrimStart(s) == [] {
      LeadingSpaceIsTrimmed([]);
    } else {
      TrailingSpaceIsTrimmed(TrimStart(s));
    }
  }

  /** Spaces typed around an entry do not change whether it is a number. */
  lemma PaddingIsIgnored(s: string)
    ensures IsNumericText([' '] + s + [' ']) == IsNumericText(s)
  {
    PaddedTrim(s);
  }

  /** The form's own state. `state` is declared `static`, so an instance starts from an
      empty state object: both fields are undefined until edited. */
  datatype SettingsState = SettingsState(apiAddress: JsValue, containedCo2: JsValue)

  const InitialSettings := SettingsState(Undefined, Undefined)

  /** `v != undefined && v != ""` under JavaScript's loose inequality, by which the number
      0 equals the empty string. */
  predicate Filled(v: JsValue) {
    v != Undefined && v != Text("") && !(v.Number? && v.n == 0.0)
  }

  /** The save button: each context field takes the form's value when that value is filled. */
  function Saved(s: SettingsState, c: ContextState): (r: ContextState)
    ensures r.apiAddress == s.apiAddress || r.apiAddress == c.apiAddress
    ensures r.containedCo2 == s.containedCo2 || r.containedCo2 == c.containedCo2
    ensures r.apiAddress != c.apiAddress ==> Filled(s.apiAddress)
    ensures r.containedCo2 != c.containedCo2 ==> Filled(s.containedCo2)
  {
    var c1 := if Filled(s.apiAddress) then WithApiAddress(c, s.apiAddress) else c;
    if Filled(s.containedCo2) then WithContainedCo2(c1, s.containedCo2) else c1
  }

  /** Saving twice saves nothing more. */
  lemma SaveIsIdempotent(s: SettingsState, c: ContextState)
    ensures Saved(s, Saved(s, c)) == Saved(s, c)
  {
  }

  /** A context whose fields are filled or still initial keeps that property across saves:
      an empty value never replaces a saved one. */
  lemma SaveNeverClears(s: SettingsState, c: ContextState)
    requires Filled(c.apiAddress) || c.apiAddress == Initial.apiAddress
    requires Filled(c.containedCo2) || c.containedCo2 == Initial.containedCo2
    ensures var r := Saved(s, c);
              (Filled(r.apiAddress) || r.apiAddress == Initial.apiAddress) &&
              (Filled(r.containedCo2) || r.containedCo2 == Initial.containedCo2) &&
              (Filled(c.apiAddress) ==> Filled(r.apiAddress)) &&
              (Filled(c.containedCo2) ==> Filled(r.containedCo2))
  {
  }

  /** An address edit replaces only the form's address. */
  function AfterAddressEdit(s: SettingsState, text: string): (r: SettingsState)
    ensures r.apiAddress == Text(text) && r.containedCo2 == s.containedCo2
  {
    s.(apiAddress := Text(text))
  }

  /** A POST to the scale: the context's address, the endpoint and the `contained_co2`
      value of the JSON body, if any. */
  datatype Request = Request(base: JsValue, endpoint: string, containedCo2: Option<string>)

  const ContainedCo2Endpoint := "/api/v1/contained-co2"
  const TareEndpoint := "/api/v1/tare"

  /** The request a CO2 edit sends: none when `isNaN` refuses the text. */
  function Co2Request(c: ContextState, text: string): (r: Option<Request>)
    ensures r.Some? <==> IsNumericText(text)
    ensures r.Some? ==> r.value == Request(c.apiAddress, ContainedCo2Endpoint, Some(text))
  {
    if !IsNumericText(text) then None else Some(Request(c.apiAddress, ContainedCo2Endpoint, Some(text)))
  }

  /** The tare button's request, which carries no body. */
  function TareRequest(c: ContextState): (r: Request)
    ensures r.base == c.apiAddress && r.endpoint == TareEndpoint && r.containedCo2.None?
  {
    Request(c.apiAddress, TareEndpoint, None)
  }

  /** The form's CO2 entry is undefined or numeric text. */
  predicate NumericOrUnset(v: JsValue) {
    v == Undefined || (v.Text? && IsNumericText(v.s))
  }

  /** Blank CO2 text passes the `isNaN` guard and is posted to the scale, yet once the form
      holds it the save button leaves the context's CO2 as it was. */
  lemma BlankEntryPostedButNotSaved(s: SettingsState, c: ContextState)
    ensures Co2Request(c, "").Some?
    ensures Saved(s.(containedCo2 := Text("")), c).containedCo2 == c.containedCo2
  {
    assert Trim("") == "";
  }

  /** When the form's CO2 entry is numeric or unset, a save puts into the context either
      nothing new or non-empty numeric text. */
  lemma SavedCo2IsNumeric(s: SettingsState, c: ContextState)
    requires NumericOrUnset(s.containedCo2)
    ensures var r := Saved(s, c);
              r.containedCo2 == c.containedCo2 ||
              (r.containedCo2.Text? && r.containedCo2.s != "" && IsNumericText(r.containedCo2.s))
  {
  }

  /** As written, an answer can leave text `isNaN` refused in the form, and the save button
      then puts it into the context: "12" is posted, the field is edited to "12ab", which
      is not posted, and the answer to "12" stores the field's "12ab". */
  lemma AsWrittenSavesRefusedText(s: SettingsState, c: ContextState)
    ensures Co2Request(c, "12").Some? && Co2Request(c, "12ab").None?
    ensures var answered := s.(containedCo2 := Text("12ab"));
              !NumericOrUnset(answered.containedCo2) &&
              Saved(answered, c).containedCo2 == Text("12ab")
  {
    assert DecimalDigits("12") by {
      assert IsDecimalDigit('1') && IsDecimalDigit('2');
    }
    DigitsAreNumeric("12");
    LetterInsideIsRefused();
    var answered := s.(containedCo2 := Text("12ab"));
    assert Filled(answered.containedCo2);
  }

  /** "12ab" is not a number: no sign, exponent or point, and a letter among the digits. */
  lemma LetterInsideIsRefused()
    ensures !IsNumericText("12ab")
  {
    var t := "12ab";
    assert !IsWhiteSpace(t[0]) && !IsWhiteSpace(t[3]);
    assert TrimStart(t) == t;
    assert TrimEnd(t) == t;
    assert Trim(t) == t;
    assert !NonDecimalLiteral(t) by {
      assert t[0] != '0';
    }
    assert !IsSign(t[0]);
    assert t != "Infinity" by {
      assert t[0] != 'I';
    }
    assert IndexOfEither(t, 'e', 'E').None? by {
      forall i | 0 <= i < |t| ensures t[i] != 'e' && t[i] != 'E' {
      }
    }
    assert IndexOfEither(t, '.', '.').None? by {
      forall i | 0 <= i < |t| ensures t[i] != '.' {
      }
    }
    assert !DecimalDigits(t) by {
      assert !IsDecimalDigit(t[2]);
    }
  }

  /** Every entry is numeric text. */
  predicate AllNumeric(entries: seq<string>) {
    forall i :: 0 <= i < |entries| ==> IsNumericText(entries[i])
  }

  /** Appending numeric text keeps every entry numeric. */
  lemma AppendKeepsNumeric(entries: seq<string>, text: string)
    requires AllNumeric(entries) && IsNumericText(text)
    ensures AllNumeric(entries + [text])
  {
    var r := entries + [text];
    forall i | 0 <= i < |r|
      ensures IsNumericText(r[i])
    {
      if i < |entries| {
        assert r[i] == entries[i];
      }
    }
  }

  /** Removing an entry keeps every other entry numeric. */
  lemma RemoveKeepsNumeric(entries: seq<string>, k: nat)
    requires AllNumeric(entries) && k < |entries|
    ensures AllNumeric(entries[..k] + entries[k + 1..])
  {
    var r := entries[..k] + entries[k + 1..];
    forall i | 0 <= i < |r|
      ensures IsNumericText(r[i])
    {
      RemovedAt(entries, k, i);
    }
  }

  /** Position `i` after removing position `k` holds what stood at `i` or at `i + 1`. */
  lemma RemovedAt<T>(s: seq<T>, k: nat, i: nat)
    requires k < |s| && i < |s| - 1
    ensures (s[..k] + s[k + 1..])[i] == s[if i < k then i else i + 1]
  {
  }

  /** The `Settings` component: its state and the CO2 entries posted to the scale whose
      answer has not arrived yet. */
  class SettingsView {
    var apiAddress: JsValue
    var containedCo2: JsValue
    var pending: seq<string>

    function State(): SettingsState
      reads this
    {
      SettingsState(apiAddress, containedCo2)
    }

    /** Only numeric CO2 text is ever posted. */
    ghost predicate Valid()
      reads this
    {
      AllNumeric(pending)
    }

    constructor ()
      ensures Valid() && State() == InitialSettings && pending == []
      ensures NumericOrUnset(containedCo2)
    {
      apiAddress := Undefined;
      containedCo2 := Undefined;
      pending := [];
    }

    /** `handleAddressChange`. */
    method HandleAddressChange(text: string)
      requires Valid()
      modifies this
      ensures Valid() && State() == AfterAddressEdit(old(State()), text) && pending == old(pending)
    {
      apiAddress := Text(text);
    }

    /** `handleContainedCo2WeightChange`: posts numeric text and leaves the form unchanged
        until the scale answers. */
    method HandleContainedCo2Change(c: ContextState, text: string) returns (request: Option<Request>)
      requires Valid()
      modifies this
      ensures Valid() && request == Co2Request(c, text) && State() == old(State())
      ensures pending == if request.Some? then old(pending) + [text] else old(pending)
    {
      if !IsNumericText(text) {
        return None;
      }
      request := Some(Request(c.apiAddress, ContainedCo2Endpoint, Some(text)));
      AppendKeepsNumeric(pending, text);
      pending := pending + [text];
    }

    /** The answer to the `k`-th outstanding post arrived and parsed, as written: the
        handler reads the input element again, so the form takes `fieldText`, the CO2
        field's text at that moment, whether or not it was posted or is a number. Answers
        may arrive in any order. */
    method Co2AnsweredAsWritten(k: nat, fieldText: string)
      requires Valid() && k < |pending|
      modifies this
      ensures Valid()
      ensures State() == old(State()).(containedCo2 := Text(fieldText))
      ensures pending == old(pending)[..k] + old(pending)[k + 1..]
    {
      RemoveKeepsNumeric(pending, k);
      containedCo2 := Text(fieldText);
      pending := pending[..k] + pending[k + 1..];
    }

    /** The answer to the `k`-th outstanding post, corrected: the form keeps the entry the
        scale confirmed, which is numeric text. */
    method Co2Answered(k: nat)
      requires Valid() && k < |pending|
      modifies this
      ensures Valid() && NumericOrUnset(containedCo2)
      ensures State() == old(State()).(containedCo2 := Text(old(pending)[k]))
      ensures pending == old(pending)[..k] + old(pending)[k + 1..]
    {
      RemoveKeepsNumeric(pending, k);
      containedCo2 := Text(pending[k]);
      pending := pending[..k] + pending[k + 1..];
    }

    /** The `k`-th outstanding post failed: nothing is kept. */
    method Co2Failed(k: nat)
      requires Valid() && k < |pending|
      modifies this
      ensures Valid() && State() == old(State())
      ensures pending == old(pending)[..k] + old(pending)[k + 1..]
    {
      RemoveKeepsNumeric(pending, k);
      pending := pending[..k] + pending[k + 1..];
    }

    /** The save button. */
    method Save(context: ScaleContextProvider)
      modifies context
      ensures context.State() == Saved(State(), old(context.State()))
      ensures NumericOrUnset(containedCo2) ==>
                context.State().containedCo2 == old(context.State()).containedCo2 ||
                (containedCo2.Text? && containedCo2.s != "" && IsNumericText(containedCo2.s))
    {
      if NumericOrUnset(containedCo2) {
        SavedCo2IsNumeric(State(), context.State());
      }
      if Filled(apiAddress) {
        context.SetApiAddress(apiAddress);
      }
      if Filled(containedCo2) {
        context.SetContainedCo2(containedCo2);
      }
    }
  }
}
