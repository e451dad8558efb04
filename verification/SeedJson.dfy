/**
 Seed normalisation (cmd/stickerseeddeploy/main.go, normalizeSeedJSON): a recursive rewrite of
 a decoded JSON tree.  Objects rename file_reference_hex, Python bytes literals under the key
 "bytes" become hex, everything else is walked.
 */
module SeedJson {
  import opened Wrappers
  import opened PythonBytes

  datatype Json =
    | Object(fields: map<Bytes, Json>)
    | Array(items: seq<Json>)
    | String(text: Bytes)
    | Scalar(token: Bytes)  // numbers, booleans, null

  const REF_HEX: Bytes := "file_reference_hex"
  const REF: Bytes := "file_reference"
  const BYTES: Bytes := "bytes"

  /** The rename at the head of an object: the hex reference takes the other key over. */
  function Renamed(fields: map<Bytes, Json>): map<Bytes, Json> {
    if REF_HEX in fields then fields[REF := fields[REF_HEX]] - {REF_HEX} else fields
  }

  /** A string under the key "bytes". */
  function Converted(text: Bytes): Option<Json> {
    match Decode(text)
    case NotLiteral => Some(String(text))
    case Converted(hex) => Some(String(hex))
    case DecodeError => None
  }

  /** What becomes of the value under a key. */
  function Child(key: Bytes, value: Json): Option<Json>
    decreases value, 1
  {
    if key == BYTES && value.String? then Converted(value.text) else Normalise(value)
  }

  function Normalise(value: Json): Option<Json>
    decreases value, 0
  {
    match value
    case Object(fields) =>
      if exists k | k in Renamed(fields) :: Child(k, Renamed(fields)[k]).None? then None
      else Some(Object(map k | k in Renamed(fields) :: Child(k, Renamed(fields)[k]).value))
    case Array(items) =>
      if exists i | 0 <= i < |items| :: Normalise(items[i]).None? then None
      else Some(Array(seq(|items|, i requires 0 <= i < |items| => Normalise(items[i]).value)))
    case _ => Some(value)
  }

  /** normalizeSeedJSON as it runs: rename in the map at hand, then replace the values one key or
      one index at a time. */
  method NormalizeSeedJSON(value: Json) returns (r: Option<Json>)
    ensures r == Normalise(value)
    decreases value, 1
  {
    match value
    case Object(fields) =>
      var v := fields;
      if REF_HEX in v {
        var ref := v[REF_HEX];
        v := v[REF := ref];
        v := v - {REF_HEX};
      }
      assert v == Renamed(fields);
      r := NormalizeFields(value, v);
    case Array(items) =>
      r := NormalizeItems(value, items);
    case _ =>
      r := Some(value);
  }

  method NormalizeFields(value: Json, fields: map<Bytes, Json>) returns (r: Option<Json>)
    requires value.Object? && fields == Renamed(value.fields)
    ensures r == Normalise(value)
    decreases value, 0
  {
    var v, keys := fields, fields.Keys;
    while keys != {}
      invariant forall k :: k in v <==> k in fields
      invariant forall k | k in keys :: k in fields
      invariant forall k | k in fields ::
        if k in keys then v[k] == fields[k] else Child(k, fields[k]) == Some(v[k])
      decreases |keys|
    {
      var k :| k in keys;
      var child := NormalizeChild(k, fields[k]);
      if child.None? { return None; }
      v := v[k := child.value];
      keys := keys - {k};
    }
    assert v == map k | k in fields :: Child(k, fields[k]).value;
    r := Some(Object(v));
  }

  method NormalizeChild(key: Bytes, value: Json) returns (r: Option<Json>)
    ensures r == Child(key, value)
    decreases value, 2
  {
    if key == BYTES && value.String? {
      var d := PythonBytesLiteralToHex(value.text);
      if d.DecodeError? { return None; }
      return Some(if d.Converted? then String(d.hex) else value);
    }
    r := NormalizeSeedJSON(value);
  }

  method NormalizeItems(value: Json, items: seq<Json>) returns (r: Option<Json>)
    requires value == Array(items)
    ensures r == Normalise(value)
    decreases value, 0
  {
    var v := items;
    for i := 0 to |items|
      invariant |v| == |items|
      invariant forall j | 0 <= j < |items| :: if j < i then Normalise(items[j]) == Some(v[j]) else v[j] == items[j]
    {
      var child := NormalizeSeedJSON(v[i]);
      if child.None? { return None; }
      v := v[i := child.value];
    }
    assert v == seq(|items|, i requires 0 <= i < |items| => Normalise(items[i]).value);
    r := Some(Array(v));
  }

  // ---------------------------------------------------------------------------
  // What stands where
  // ---------------------------------------------------------------------------

  /** The value of the input that ends up under a key: the hex reference takes the other one's place. */
  function Source(fields: map<Bytes, Json>, key: Bytes): Option<Json> {
    if key == "file_reference_hex" then None
    else if key == "file_reference" && "file_reference_hex" in fields then Some(fields["file_reference_hex"])
    else if key in fields then Some(fields[key])
    else None
  }

  /** What becomes of a value under a key: a bytes literal under "bytes" its hex, any other string
      under it itself, everything else its own rewrite; nothing when a literal in it is broken. */
  function Rewritten(key: Bytes, was: Json): Option<Json> {
    if key == "bytes" && was.String? then
      match Decode(was.text)
      case NotLiteral => Some(was)
      case Converted(hex) => Some(String(hex))
      case DecodeError => None
    else Normalise(was)
  }

  /** An object: it fails if and only if one of its values does, and otherwise has under every key
      exactly the rewrite of that key's source, and no other keys. */
  lemma ObjectExactly(fields: map<Bytes, Json>)
    ensures Normalise(Object(fields)).None? <==> exists key :: Source(fields, key).Some? && Rewritten(key, Source(fields, key).value).None?
    ensures Normalise(Object(fields)).Some? ==>
      var out := Normalise(Object(fields)).value;
      && out.Object?
      && (forall key :: key in out.fields <==> Source(fields, key).Some?)
      && (forall key | key in out.fields :: Rewritten(key, Source(fields, key).value) == Some(out.fields[key]))
  {
    var renamed := Renamed(fields);
    forall key
      ensures key in renamed <==> Source(fields, key).Some?
      ensures key in renamed ==> renamed[key] == Source(fields, key).value && Child(key, renamed[key]) == Rewritten(key, renamed[key])
    {
    }
    if Normalise(Object(fields)).None? {
      var key :| key in renamed && Child(key, renamed[key]).None?;
      assert Source(fields, key).Some? && Rewritten(key, Source(fields, key).value).None?;
    }
  }

  /** An array: it fails if and only if an item does, and otherwise has each item's rewrite in its
      place.  Strings, numbers and the like stay. */
  lemma ArrayExactly(items: seq<Json>)
    ensures Normalise(Array(items)).None? <==> exists i :: 0 <= i < |items| && Normalise(items[i]).None?
    ensures Normalise(Array(items)).Some? ==>
      var out := Normalise(Array(items)).value;
      out.Array? && |out.items| == |items| && forall i | 0 <= i < |items| :: Normalise(items[i]) == Some(out.items[i])
    ensures forall text :: Normalise(String(text)) == Some(String(text))
    ensures forall token :: Normalise(Scalar(token)) == Some(Scalar(token))
  {
  }

  // ---------------------------------------------------------------------------
  // Normal forms
  // ---------------------------------------------------------------------------

  /** No file_reference_hex and no bytes literal under "bytes", at any depth. */
  predicate Normal(value: Json) {
    match value
    case Object(fields) =>
      && REF_HEX !in fields
      && (BYTES in fields && fields[BYTES].String? ==> !LooksLiteral(fields[BYTES].text))
      && forall k | k in fields :: Normal(fields[k])
    case Array(items) => forall i | 0 <= i < |items| :: Normal(items[i])
    case _ => true
  }

  lemma {:induction false} HexHasNoQuote(b: Bytes)
    ensures forall c | c in Hex(b) :: c != '\'' && c != '"'
  {
    if b != [] { HexHasNoQuote(b[1..]); }
  }

  /** Hex is never read as a bytes literal again. */
  lemma HexIsNoLiteral(b: Bytes)
    ensures !LooksLiteral(Hex(b))
  {
    HexHasNoQuote(b);
    if LooksLiteral(Hex(b)) { assert Hex(b)[1] in Hex(b); }
  }

  lemma ConvertedIsNormal(text: Bytes)
    ensures Converted(text).Some? ==> Converted(text).value.String? && !LooksLiteral(Converted(text).value.text)
    ensures Converted(text) == Some(String(text)) <==> !LooksLiteral(text)
  {
    if LooksLiteral(text) && text[|text| - 1] == text[1] && Inner(text[2..|text| - 1]).Some? {
      HexIsNoLiteral(Inner(text[2..|text| - 1]).value);
    }
  }

  /** Whatever normalisation yields is in normal form. */
  lemma {:induction false} YieldsNormal(value: Json)
    requires Normalise(value).Some?
    ensures Normal(Normalise(value).value)
    ensures Normalise(value).value.String? ==> value.String?
    decreases value
  {
    match value
    case Object(fields) =>
      var renamed, out := Renamed(fields), Normalise(value).value.fields;
      forall k | k in out
        ensures Normal(out[k])
        ensures k == BYTES && out[k].String? ==> !LooksLiteral(out[k].text)
      {
        assert out[k] == Child(k, renamed[k]).value;
        if k == BYTES && renamed[k].String? {
          ConvertedIsNormal(renamed[k].text);
        } else {
          YieldsNormal(renamed[k]);
        }
      }
    case Array(items) =>
      forall i | 0 <= i < |items| ensures Normal(Normalise(items[i]).value) { YieldsNormal(items[i]); }
    case _ =>
  }

  /** Trees in normal form are exactly the ones normalisation leaves alone. */
  lemma {:induction false} NormalIsFixed(value: Json)
    requires Normal(value)
    ensures Normalise(value) == Some(value)
    decreases value
  {
    match value
    case Object(fields) =>
      forall k | k in fields ensures Child(k, fields[k]) == Some(fields[k]) {
        if k == BYTES && fields[k].String? { ConvertedIsNormal(fields[k].text); } else { NormalIsFixed(fields[k]); }
      }
      assert Renamed(fields) == fields;
      assert (map k | k in fields :: Child(k, fields[k]).value) == fields;
    case Array(items) =>
      forall i | 0 <= i < |items| ensures Normalise(items[i]) == Some(items[i]) { NormalIsFixed(items[i]); }
      assert seq(|items|, i requires 0 <= i < |items| => Normalise(items[i]).value) == items;
    case _ =>
  }

  lemma FixedExactly(value: Json)
    ensures Normalise(value) == Some(value) <==> Normal(value)
  {
    if Normalise(value) == Some(value) { YieldsNormal(value); }
    if Normal(value) { NormalIsFixed(value); }
  }

  /** Normalising twice is normalising once. */
  lemma Idempotent(value: Json)
    requires Normalise(value).Some?
    ensures Normalise(Normalise(value).value) == Normalise(value)
  {
    YieldsNormal(value);
    NormalIsFixed(Normalise(value).value);
  }
}
