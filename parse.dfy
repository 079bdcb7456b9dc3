/** JSON-RPC 2.0 request validation and parameter addressing: the scratch space with its
    fixed-capacity pointer and id buffers, the validation chain and callback lookup of
    `find_callback`, `round_up_to`, and the older `strip_http_headers`. */
module JsonRpc {
  import opened Shared
  import opened Decimal
  import opened Search
  import opened Pico
  import opened Buffers
  import opened JsonTree
  import opened JsonPointer

  const InvalidRequestCode: int := -32600
  const MethodNotFoundCode: int := -32601
  const ParseErrorCode: int := -32700

  const NotObjectError := ProtocolError(InvalidRequestCode, "The JSON sent is not a valid request object.")
  const VersionError := ProtocolError(InvalidRequestCode, "The request doesn't specify the 2.0 version.")
  const IdError := ProtocolError(InvalidRequestCode, "The request must have integer or string id.")
  const MethodError := ProtocolError(InvalidRequestCode, "The method must be a string.")
  const ParamsError := ProtocolError(InvalidRequestCode, "Parameters can only be passed in arrays or objects.")
  const IdIntegerError := ProtocolError(InvalidRequestCode, "The request ID is invalid integer.")
  const MethodNotFoundError := ProtocolError(MethodNotFoundCode, "Method not found.")
  const InvalidJsonError := ProtocolError(ParseErrorCode, "Invalid JSON was received by the server.")
  const StripPartialError := ProtocolError(-2, "Partial HTTP request")

  /** A registered callback: its name and an opaque handle to it. */
  datatype NamedCallback = NamedCallback(name: string, handle: nat)

  // ---------------------------------------------------------------------------
  // JSON Pointers to parameters

  const ParamsPrefix: string := "/params/"

  datatype PointerError = InvalidJsonPointer

  predicate NeedsSlash(name: string)
  {
    |name| > 0 && name[0] != '/'
  }

  /** The pointer `point_to_param(name)` builds: the first `8 - needs_slash` bytes of
      `/params/`, then the name. */
  function NamedPointerAsWritten(name: string): string
  {
    ParamsPrefix[..8 - (if NeedsSlash(name) then 1 else 0)] + name
  }

  /** The pointer the name overload is meant to build: `/params/` before a bare name,
      `/params` before a name that already starts with `/`. */
  function NamedPointer(name: string): string
  {
    ParamsPrefix[..if NeedsSlash(name) then 8 else 7] + name
  }

  /** As written, a bare name is glued onto `params` and a slashed one gains an empty
      token, so neither pointer addresses the named member of `params`. */
  lemma NamedPointerAsWrittenMisses(name: string)
    requires |name| > 0 && '/' !in name
    ensures NamedPointerAsWritten(name) == "/params" + name
    ensures ReferenceTokens(NamedPointerAsWritten(name)) == ["params" + name]
    ensures NamedPointerAsWritten("/" + name) == "/params//" + name
    ensures ReferenceTokens(NamedPointerAsWritten("/" + name)) == ["params", "", name]
  {
    var p := NamedPointerAsWritten(name);
    assert ParamsPrefix[..7] == "/params";
    assert p[1..] == "params" + name;
    SplitNoSlash("params" + name);
    var q := NamedPointerAsWritten("/" + name);
    assert q == "/params/" + "/" + name;
    assert q[1..] == "params" + "/" + ("" + "/" + name);
    SplitAfterWord("params", "" + "/" + name);
    SplitAfterWord("", name);
    SplitNoSlash(name);
  }

  /** The corrected pointer addresses member `name` (without its leading slash) of `params`. */
  lemma {:induction false} NamedPointerAddressesParam(name: string)
    requires |name| > 0 && '/' !in name[1..]
    ensures var bare := if name[0] == '/' then name[1..] else name;
      ReferenceTokens(NamedPointer(name)) == ["params", bare]
  {
    var bare := if name[0] == '/' then name[1..] else name;
    assert name == [name[0]] + name[1..];
    assert '/' !in bare;
    assert NamedPointer(name) == "/" + "params" + "/" + bare;
    TwoTokens("params", bare);
  }

  /** `/params/<position>` addresses array element `position` of `params`: the second
      token is the canonical decimal form RFC 6901 requires of an array index, and it
      denotes `position`. */
  lemma PositionalPointerAddressesParam(position: nat)
    ensures ReferenceTokens(ParamsPrefix + Digits(position)) == ["params", Digits(position)]
    ensures IsDigits(Digits(position)) && DecimalValue(Digits(position)) == position
    ensures Digits(position)[0] == '0' ==> Digits(position) == "0"
  {
    var d := Digits(position);
    assert forall i :: 0 <= i < |d| ==> d[i] != '/';
    assert ParamsPrefix + d == "/" + "params" + "/" + d;
    TwoTokens("params", d);
    DigitsRoundTrip(position);
  }

  // ---------------------------------------------------------------------------
  // round_up_to

  /** `round_up_to<step>(n)`: `((n + step - 1) / step) * step` in `size_t` arithmetic.
      Unless `n + step - 1` wraps, the result is a multiple of `step` in `[n, n + step)`. */
  function RoundUpTo(step: nat, n: nat): (r: nat)
    requires 0 < step < Size64 && n < Size64
    ensures n + step - 1 < Size64 ==> r % step == 0 && n <= r < n + step
  {
    var m := (n + step - 1) % Size64;
    var q := m / step;
    assert m == q * step + m % step;
    DivModUnique(q * step, q, 0, step);
    q * step
  }

  lemma MulMono(a: nat, b: nat, step: nat)
    requires a <= b
    ensures a * step <= b * step
  {
  }

  lemma MulLess(a: nat, b: nat, step: nat)
    requires a < b
    ensures a * step + step <= b * step
  {
    assert (a + 1) * step == a * step + step;
    MulMono(a + 1, b, step);
  }

  /** Quotient and remainder are unique. */
  lemma DivModUnique(x: nat, q: nat, rem: nat, step: nat)
    requires step > 0 && rem < step && x == q * step + rem
    ensures x / step == q && x % step == rem
  {
    var q': nat, r': nat := x / step, x % step;
    assert x == q' * step + r';
    if q' < q {
      MulLess(q', q, step);
    } else if q' > q {
      MulLess(q, q', step);
    }
  }

  /** No multiple of `step` at least `n` lies below the result: it is the least one. */
  lemma {:induction false} RoundUpToIsLeast(step: nat, n: nat, m: nat)
    requires 0 < step < Size64 && n < Size64 && n + step - 1 < Size64
    requires m % step == 0 && m >= n
    ensures RoundUpTo(step, n) <= m
  {
    var k := (n + step - 1) / step;
    var a := m / step;
    assert m == a * step;
    assert RoundUpTo(step, n) == k * step;
    if a >= k {
      MulMono(k, a, step);
    } else {
      MulLess(a, k, step);
    }
  }

  /** Rounding an already rounded value changes nothing (away from the top of `size_t`). */
  lemma RoundUpToIdempotent(step: nat, n: nat)
    requires 0 < step < Size64 && n + 2 * step <= Size64
    ensures RoundUpTo(step, RoundUpTo(step, n)) == RoundUpTo(step, n)
  {
    var r := RoundUpTo(step, n);
    var k := (n + step - 1) / step;
    assert (n + step - 1) % Size64 == n + step - 1;
    assert r == k * step;
    var m := r + step - 1;
    assert m < Size64;
    assert m % Size64 == m;
    DivModUnique(m, k, step - 1, step);
    assert RoundUpTo(step, r) == (m / step) * step;
  }

  /** Near the top of `size_t` the sum wraps and the result falls below `n`. */
  lemma RoundUpToWraps()
    ensures RoundUpTo(8, Size64 - 1) == 0
  {
  }

  // ---------------------------------------------------------------------------
  // find_callback

  predicate HasVersion2(doc: Json) { Field(doc, "jsonrpc") == Some(JString("2.0")) }

  /** The id, if present, is not a non-integral number, an object or an array. */
  predicate IdShapeOk(doc: Json)
  {
    match Field(doc, "id")
    case Some(JDouble) => false
    case Some(JObject(_)) => false
    case Some(JArray(_)) => false
    case _ => true
  }

  predicate MethodIsString(doc: Json) { Field(doc, "method").Some? && Field(doc, "method").value.JString? }

  predicate ParamsShapeOk(doc: Json)
  {
    Field(doc, "params").None? || Field(doc, "params").value.JArray? || Field(doc, "params").value.JObject?
  }

  /** A request object in the sense of section 4 of the JSON-RPC 2.0 specification, as the
      server reads it (it also lets `null` and boolean ids through). */
  predicate IsRequestObject(doc: Json)
  {
    doc.JObject? && HasVersion2(doc) && IdShapeOk(doc) && MethodIsString(doc) && ParamsShapeOk(doc)
  }

  /** The validation chain of `find_callback`: the first failing check decides the message;
      every failure is -32600, and none happens exactly for a request object. */
  function EnvelopeError(doc: Json): (r: Option<ProtocolError>)
    ensures r.None? <==> IsRequestObject(doc)
    ensures r.Some? ==> r.value.code == InvalidRequestCode
    ensures r.Some? ==> r.value in {NotObjectError, VersionError, IdError, MethodError, ParamsError}
    ensures r == Some(NotObjectError) <==> !doc.JObject?
    ensures r == Some(VersionError) ==> doc.JObject? && !HasVersion2(doc)
    ensures r == Some(IdError) ==> doc.JObject? && HasVersion2(doc) && !IdShapeOk(doc)
    ensures r == Some(MethodError) ==>
      doc.JObject? && HasVersion2(doc) && IdShapeOk(doc) && !MethodIsString(doc)
    ensures r == Some(ParamsError) ==>
      doc.JObject? && HasVersion2(doc) && IdShapeOk(doc) && MethodIsString(doc) && !ParamsShapeOk(doc)
  {
    if !doc.JObject? then Some(NotObjectError)
    else if !HasVersion2(doc) then Some(VersionError)
    else if !IdShapeOk(doc) then Some(IdError)
    else if !MethodIsString(doc) then Some(MethodError)
    else if !ParamsShapeOk(doc) then Some(ParamsError)
    else None
  }

  /** An integer id the parser could only store as uint64. */
  predicate HasUInt64OnlyId(doc: Json) { Field(doc, "id").Some? && Field(doc, "id").value.JUInt? }

  /** The canonical id of a valid request: a string verbatim, an integer as decimal text
      when it fits `capacity` bytes, and the empty text for an absent, null or boolean id. */
  function CanonicalId(id: Option<Json>, capacity: nat): (r: Result<string, ProtocolError>)
    requires !(id.Some? && id.value.JUInt?)
    ensures r.Failure? <==> id.Some? && id.value.JInt? && |IntText(id.value.i)| > capacity
    ensures r.Failure? ==> r.error == IdIntegerError
    ensures r.Success? && id.Some? && id.value.JString? ==> r.value == id.value.s
    ensures r.Success? && id.Some? && id.value.JInt? ==>
      r.value == IntText(id.value.i) && SignedValue(r.value) == id.value.i
    ensures r.Success? && !(id.Some? && (id.value.JString? || id.value.JInt?)) ==> r.value == ""
  {
    match id
    case Some(JString(s)) => Success(s)
    case Some(JInt(i)) =>
      IntTextRoundTrip(i);
      if |IntText(i)| <= capacity then Success(IntText(i)) else Failure(IdIntegerError)
    case _ => Success("")
  }

  /** Every int64 id prints in at most 20 bytes, so a buffer that large never rejects one. */
  lemma Int64IdFits(i: int)
    requires -0x8000_0000_0000_0000 <= i < 0x8000_0000_0000_0000
    ensures |IntText(i)| <= 20
  {
    var magnitude := if i < 0 then -i else i;
    assert Pow10(9) == 1_000_000_000;
    assert Pow10(10) == 10_000_000_000;
    Pow10Add(9, 10);
    DigitsLength(magnitude, 19);
  }

  /** `std::find_if` over the callback table: the first entry whose name equals `name`. */
  method FindByName(callbacks: seq<NamedCallback>, name: string) returns (found: Option<nat>)
    ensures found.Some? ==> found.value < |callbacks| && callbacks[found.value].name == name
    ensures found.Some? ==> forall j :: 0 <= j < found.value ==> callbacks[j].name != name
    ensures found.None? ==> forall j :: 0 <= j < |callbacks| ==> callbacks[j].name != name
  {
    var i := 0;
    while i < |callbacks|
      invariant 0 <= i <= |callbacks|
      invariant forall j :: 0 <= j < i ==> callbacks[j].name != name
    {
      if callbacks[i].name == name {
        return Some(i);
      }
      i := i + 1;
    }
    return None;
  }

  // ---------------------------------------------------------------------------
  // scratch_space_t

  class ScratchSpace {
    /** `json_pointer`, of capacity `json_pointer_capacity_k`. */
    const jsonPointer: array<char>
    /** `printed_int_id`, of capacity `max_integer_length_k`. */
    const printedIntId: array<char>

    var tree: Json
    var isBatch: bool
    var isAsync: bool
    var isHttp: bool
    /** The text `dynamic_id` views. */
    var dynamicId: string

    ghost predicate Valid()
      reads this
    {
      jsonPointer.Length >= |ParamsPrefix| && jsonPointer != printedIntId
    }

    constructor (pointerCapacity: nat, integerCapacity: nat)
      requires pointerCapacity >= |ParamsPrefix|
      ensures Valid() && fresh(jsonPointer) && fresh(printedIntId)
      ensures jsonPointer.Length == pointerCapacity && printedIntId.Length == integerCapacity
      ensures tree == JNull && !isBatch && !isAsync && !isHttp && dynamicId == ""
    {
      jsonPointer := new char[pointerCapacity];
      printedIntId := new char[integerCapacity];
      tree := JNull;
      isBatch, isAsync, isHttp := false, false, false;
      dynamicId := "";
    }

    /** Writes `head + name` at the start of the pointer buffer when it fits, and
        otherwise fails without touching the buffer. */
    method ComposePointer(head: string, name: string) returns (r: Result<string, PointerError>)
      requires Valid()
      modifies jsonPointer
      ensures var p := head + name;
        if |p| > jsonPointer.Length then
          r == Failure(InvalidJsonPointer) && jsonPointer[..] == old(jsonPointer[..])
        else
          r == Success(p) && jsonPointer[..|p|] == p && jsonPointer[|p|..] == old(jsonPointer[|p|..])
    {
      var finalSize := |name| + |head|;
      if finalSize > jsonPointer.Length {
        return Failure(InvalidJsonPointer);
      }
      ghost var before := jsonPointer[..];
      CopyInto(jsonPointer, 0, head);
      ghost var middle := jsonPointer[..];
      CopyInto(jsonPointer, |head|, name);
      assert jsonPointer[..finalSize] == head + name by {
        assert middle[..|head|] == head;
        assert jsonPointer[..|head|] == middle[..|head|];
      }
      assert jsonPointer[finalSize..] == before[finalSize..] by {
        assert middle[finalSize..] == before[finalSize..];
      }
      r := Success(jsonPointer[..finalSize]);
    }

    /** `point_to_param(name)` as written: the pointer it would resolve, or a failure that
        leaves the buffer untouched when `|name| + 8 - needs_slash` exceeds the capacity. */
    method PointToNamedParam(name: string) returns (r: Result<string, PointerError>)
      requires Valid()
      modifies jsonPointer
      ensures var p := NamedPointerAsWritten(name);
        |p| == |name| + 8 - (if NeedsSlash(name) then 1 else 0) &&
        if |p| > jsonPointer.Length then
          r == Failure(InvalidJsonPointer) && jsonPointer[..] == old(jsonPointer[..])
        else
          r == Success(p) && jsonPointer[..|p|] == p && jsonPointer[|p|..] == old(jsonPointer[|p|..])
    {
      var needsSlash := |name| > 0 && name[0] != '/';
      var prefixLength := if needsSlash then 7 else 8;
      r := ComposePointer(ParamsPrefix[..prefixLength], name);
    }

    /** The name overload with the slash rule the right way round. */
    method PointToNamedParamCorrected(name: string) returns (r: Result<string, PointerError>)
      requires Valid()
      modifies jsonPointer
      ensures var p := NamedPointer(name);
        |p| == |name| + 7 + (if NeedsSlash(name) then 1 else 0) &&
        if |p| > jsonPointer.Length then
          r == Failure(InvalidJsonPointer) && jsonPointer[..] == old(jsonPointer[..])
        else
          r == Success(p) && jsonPointer[..|p|] == p && jsonPointer[|p|..] == old(jsonPointer[|p|..])
    {
      var needsSlash := |name| > 0 && name[0] != '/';
      var prefixLength := if needsSlash then 8 else 7;
      r := ComposePointer(ParamsPrefix[..prefixLength], name);
    }

    /** `point_to_param(position)`: `/params/` is always written first; the digits follow
        when they fit in the rest of the buffer, and otherwise the lookup fails (the bytes
        after the prefix are then unspecified). */
    method PointToPositionalParam(position: nat) returns (r: Result<string, PointerError>)
      requires Valid() && position < Size64
      modifies jsonPointer
      ensures jsonPointer[..|ParamsPrefix|] == ParamsPrefix
      ensures var d := Digits(position);
        if |d| > jsonPointer.Length - |ParamsPrefix| then
          r == Failure(InvalidJsonPointer)
        else
          r == Success(ParamsPrefix + d) && jsonPointer[..|ParamsPrefix| + |d|] == ParamsPrefix + d &&
          jsonPointer[|ParamsPrefix| + |d|..] == old(jsonPointer[|ParamsPrefix| + |d|..])
    {
      CopyInto(jsonPointer, 0, ParamsPrefix);
      var digits := Digits(position);
      if |digits| > jsonPointer.Length - |ParamsPrefix| {
        return Failure(InvalidJsonPointer);
      }
      ghost var middle := jsonPointer[..];
      CopyInto(jsonPointer, |ParamsPrefix|, digits);
      assert jsonPointer[..|ParamsPrefix|] == middle[..|ParamsPrefix|];
      r := Success(jsonPointer[..|ParamsPrefix| + |digits|]);
    }

    /** `to_chars` of an integer id into `printed_int_id`: succeeds exactly when its text
        fits; on failure the buffer's contents are unspecified. */
    method PrintIntId(i: int) returns (ok: bool)
      requires Valid()
      modifies printedIntId
      ensures ok == (|IntText(i)| <= printedIntId.Length)
      ensures ok ==> printedIntId[..|IntText(i)|] == IntText(i)
      ensures ok ==> printedIntId[|IntText(i)|..] == old(printedIntId[|IntText(i)|..])
    {
      var text := IntText(i);
      ok := |text| <= printedIntId.Length;
      if ok {
        CopyInto(printedIntId, 0, text);
      }
    }
  }

  /** `find_callback`: validates the request in `scratch.tree`, records its canonical id
      in `scratch.dynamicId` and returns the handle of the first callback named by the
      request's method. */
  method FindCallback(callbacks: seq<NamedCallback>, scratch: ScratchSpace) returns (r: Result<nat, ProtocolError>)
    requires scratch.Valid()
    requires !HasUInt64OnlyId(scratch.tree)
    modifies scratch`dynamicId, scratch.printedIntId
    ensures EnvelopeError(scratch.tree).Some? ==>
      r == Failure(EnvelopeError(scratch.tree).value) && scratch.dynamicId == old(scratch.dynamicId)
    ensures EnvelopeError(scratch.tree).None? ==>
      var id := CanonicalId(Field(scratch.tree, "id"), scratch.printedIntId.Length);
      (id.Failure? ==> r == Failure(IdIntegerError) && scratch.dynamicId == old(scratch.dynamicId)) &&
      (id.Success? ==> scratch.dynamicId == id.value)
    ensures EnvelopeError(scratch.tree).None? && Field(scratch.tree, "id").Some? && Field(scratch.tree, "id").value.JInt? && r != Failure(IdIntegerError) ==>
      scratch.printedIntId[..|scratch.dynamicId|] == scratch.dynamicId
    ensures r.Success? ==>
      var name := Field(scratch.tree, "method").value.s;
      exists k :: 0 <= k < |callbacks| && callbacks[k].name == name && r.value == callbacks[k].handle &&
        forall j :: 0 <= j < k ==> callbacks[j].name != name
    ensures r.Success? <==>
      IsRequestObject(scratch.tree) &&
      CanonicalId(Field(scratch.tree, "id"), scratch.printedIntId.Length).Success? &&
      exists k :: 0 <= k < |callbacks| && callbacks[k].name == Field(scratch.tree, "method").value.s
    ensures r.Failure? ==>
      r.error in {NotObjectError, VersionError, IdError, MethodError, ParamsError, IdIntegerError, MethodNotFoundError}
    ensures !(EnvelopeError(scratch.tree).None? && Field(scratch.tree, "id").Some? && Field(scratch.tree, "id").value.JInt?) ==>
      scratch.printedIntId[..] == old(scratch.printedIntId[..])
    ensures r == Failure(MethodNotFoundError) <==>
      IsRequestObject(scratch.tree) &&
      CanonicalId(Field(scratch.tree, "id"), scratch.printedIntId.Length).Success? &&
      forall j :: 0 <= j < |callbacks| ==> callbacks[j].name != Field(scratch.tree, "method").value.s
  {
    var doc := scratch.tree;
    var err := EnvelopeError(doc);
    if err.Some? {
      return Failure(err.value);
    }
    var id := Field(doc, "id");
    if id.Some? && id.value.JString? {
      scratch.dynamicId := id.value.s;
    } else if id.Some? && id.value.JInt? {
      var ok := scratch.PrintIntId(id.value.i);
      if !ok {
        return Failure(IdIntegerError);
      }
      scratch.dynamicId := scratch.printedIntId[..|IntText(id.value.i)|];
    } else {
      scratch.dynamicId := "";
    }
    var name := Field(doc, "method").value.s;
    var found := FindByName(callbacks, name);
    if found.None? {
      return Failure(MethodNotFoundError);
    }
    r := Success(callbacks[found.value].handle);
  }

  // ---------------------------------------------------------------------------
  // strip_http_headers

  /** The parts of the older header-stripping result that the model keeps. */
  datatype StrippedRequest = StrippedRequest(kind: string, body: string)

  /** `strip_http_headers` after the tokenizer has run: a partial request is reported; a
      POST keeps everything from the first terminator on, terminator included, and fails
      without one; anything else (other methods, malformed input) keeps the whole input. */
  function StripHttpHeaders(input: string, tok: PicoResult): (r: Result<StrippedRequest, ProtocolError>)
    ensures r == Failure(StripPartialError) <==> tok.Partial?
    ensures r.Failure? && !tok.Partial? ==>
      r.error == InvalidJsonError && tok.Parsed? && tok.verb == "POST" && FindFirst(input, Terminator).None?
    ensures r.Success? ==> r.value.kind == (if tok.Parsed? then tok.verb else "")
    ensures r.Success? && r.value.kind == "POST" ==>
      |Terminator| <= |r.value.body| <= |input| && r.value.body[..|Terminator|] == Terminator &&
      input == input[..|input| - |r.value.body|] + r.value.body &&
      forall j :: 0 <= j < |input| - |r.value.body| ==> !OccursAt(input, Terminator, j)
    ensures r.Success? && r.value.kind != "POST" ==> r.value.body == input
  {
    if tok.Partial? then Failure(StripPartialError)
    else
      var kind := if tok.Parsed? then tok.verb else "";
      if |kind| > 0 && kind == "POST" then
        match FindFirst(input, Terminator)
        case None => Failure(InvalidJsonError)
        case Some(pos) => Success(StrippedRequest(kind, input[pos..]))
      else Success(StrippedRequest(kind, input))
  }
}
