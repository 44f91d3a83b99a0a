/** The trace string of a request, and reading its identifiers back. */
module Trace {
  import opened Wrappers
  import opened JsonFields
  import opened Query
  import opened Units
  import UrlCodec

  datatype Bid = Bid(mapid: string, groupidType: string)

  // impm, w and h are what cal_impm makes of the impression.
  datatype Impression = Impression(id: seq<Char8>, kind: int, impm: string, w: int, h: int)

  datatype Request = Request(
    id: seq<Char8>, at: int, bid: Option<Bid>, imp: Option<Impression>, ip: string, deviceid: string, deviceidtype: int,
    appid: seq<Char8>, connectiontype: int, os: int, location: int, devicetype: int, make: int, model: seq<Char8>,
      carrier: int)

  // urlencode on a string stops where the C string does.
  function CString(s: seq<Char8>): (c: seq<Char8>)
    ensures '\0' !in c && ('\0' !in s ==> c == s)
    ensures c <= s && (|c| < |s| ==> s[|c|] == '\0')
  {
    if s == [] || s[0] == '\0' then [] else [s[0]] + CString(s[1..])
  }

  function Encoded(s: seq<Char8>): string {
    UrlCodec.Encode(CString(s))
  }

  // The twenty fields, five at a time.
  function Part(r: Request, k: nat): (fields: seq<Field>)
    requires k < 4
    ensures |fields| == 5
  {
    match k
    case 0 => [
      Field("bid", Encoded(r.id)),
      Field("at", Decimal(r.at)),
      Field("mapid", if r.bid.Some? then r.bid.value.mapid else ""),
      Field("impid", if r.imp.Some? then Encoded(r.imp.value.id) else ""),
      Field("impt", if r.imp.Some? then Decimal(r.imp.value.kind) else "")]
    case 1 => [
      Field("impm", if r.imp.Some? then r.imp.value.impm else ""),
      Field("ip", r.ip),
      Field("w", Decimal(if r.imp.Some? then r.imp.value.w else 0)),
      Field("h", Decimal(if r.imp.Some? then r.imp.value.h else 0)),
      Field("deviceid", r.deviceid)]
    case 2 => [
      Field("deviceidtype", Decimal(r.deviceidtype)),
      Field("appid", Encoded(r.appid)),
      Field("nw", Decimal(r.connectiontype)),
      Field("os", Decimal(r.os)),
      Field("gp", Decimal(r.location))]
    case _ => [
      Field("tp", Decimal(r.devicetype)),
      Field("mb", Decimal(r.make)),
      Field("md", Encoded(r.model)),
      Field("op", Decimal(r.carrier)),
      Field("ds", if r.bid.None? then "" else if r.bid.value.groupidType == "pap" then "1" else "0")]
  }

  function Fields(r: Request): seq<Field> {
    Part(r, 0) + Part(r, 1) + Part(r, 2) + Part(r, 3)
  }

  // The fields that are not encoded hold no separator.
  predicate Separable(r: Request) {
    && Plain(r.ip) && Plain(r.deviceid)
    && (r.bid.Some? ==> Plain(r.bid.value.mapid))
    && (r.imp.Some? ==> Plain(r.imp.value.impm))
  }

  lemma {:induction false} JoinAppend(fields: seq<Field>, f: Field)
    ensures Join(fields + [f]) == if fields == [] then f.key + "=" + f.value
            else Join(fields) + "&" + f.key + "=" + f.value
  {
    if fields != [] {
      JoinAppend(fields[1..], f);
      assert (fields + [f])[1..] == fields[1..] + [f];
    } else {
      assert [] + [f] == [f];
    }
  }

  // One more field at the end of the string.
  method Add(ret: string, ghost fields: seq<Field>, key: string, value: string)
      returns (ret': string, ghost fields': seq<Field>)
    requires ret == Join(fields) && fields != []
    ensures fields' == fields + [Field(key, value)] && ret' == Join(fields')
  {
    ret' := ret + "&" + key + "=";
    ret' := ret' + value;
    fields' := fields + [Field(key, value)];
    JoinAppend(fields, Field(key, value));
  }

  method GetTraceUrlPar(r: Request) returns (ret: string)
    ensures ret == Join(Fields(r))
  {
    hide Join, Decimal, Encoded, Part;
    var first := Impression([], 0, "", 0, 0);
    var imp := if r.imp.Some? then r.imp.value else first;
    ret := AddRequest(r);
    ghost var fs := Part(r, 0);
    ret, fs := AddDevice(r, ret, fs, imp.w, imp.h);
    ret, fs := AddApp(r, ret, fs);
    ret, fs := AddModel(r, ret, fs);
  }

  method AddRequest(r: Request) returns (ret: string)
    ensures ret == Join(Part(r, 0))
  {
    hide Join, Decimal, Encoded;
    ghost var fs := [Field("bid", Encoded(r.id))];
    ret := "bid=" + Encoded(r.id);
    assert [] + [fs[0]] == fs;
    JoinAppend([], fs[0]);
    assert ret == Join(fs);
    ret, fs := Add(ret, fs, "at", Decimal(r.at));
    ret, fs := Add(ret, fs, "mapid", if r.bid.Some? then r.bid.value.mapid else "");
    ret, fs := Add(ret, fs, "impid", if r.imp.Some? then Encoded(r.imp.value.id) else "");
    ret, fs := Add(ret, fs, "impt", if r.imp.Some? then Decimal(r.imp.value.kind) else "");
    assert fs == Part(r, 0);
  }

  method AddDevice(r: Request, ret: string, ghost fs: seq<Field>, w: int, h: int)
      returns (ret': string, ghost fs': seq<Field>)
    requires ret == Join(fs) && fs != []
    requires w == (if r.imp.Some? then r.imp.value.w else 0) && h == (if r.imp.Some? then r.imp.value.h else 0)
    ensures fs' == fs + Part(r, 1) && ret' == Join(fs')
  {
    hide Join, Decimal, Encoded;
    ret', fs' := Add(ret, fs, "impm", if r.imp.Some? then r.imp.value.impm else "");
    ret', fs' := Add(ret', fs', "ip", r.ip);
    ret', fs' := Add(ret', fs', "w", Decimal(w));
    ret', fs' := Add(ret', fs', "h", Decimal(h));
    ret', fs' := Add(ret', fs', "deviceid", r.deviceid);
    assert fs' == fs + Part(r, 1);
  }

  method AddApp(r: Request, ret: string, ghost fs: seq<Field>) returns (ret': string, ghost fs': seq<Field>)
    requires ret == Join(fs) && fs != []
    ensures fs' == fs + Part(r, 2) && ret' == Join(fs')
  {
    hide Join, Decimal, Encoded;
    ret', fs' := Add(ret, fs, "deviceidtype", Decimal(r.deviceidtype));
    ret', fs' := Add(ret', fs', "appid", Encoded(r.appid));
    ret', fs' := Add(ret', fs', "nw", Decimal(r.connectiontype));
    ret', fs' := Add(ret', fs', "os", Decimal(r.os));
    ret', fs' := Add(ret', fs', "gp", Decimal(r.location));
    assert fs' == fs + Part(r, 2);
  }

  method AddModel(r: Request, ret: string, ghost fs: seq<Field>) returns (ret': string, ghost fs': seq<Field>)
    requires ret == Join(fs) && fs != []
    ensures fs' == fs + Part(r, 3) && ret' == Join(fs')
  {
    hide Join, Decimal, Encoded;
    ret', fs' := Add(ret, fs, "tp", Decimal(r.devicetype));
    ret', fs' := Add(ret', fs', "mb", Decimal(r.make));
    ret', fs' := Add(ret', fs', "md", Encoded(r.model));
    ret', fs' := Add(ret', fs', "op", Decimal(r.carrier));
    ret', fs' := Add(ret', fs', "ds",
                     if r.bid.None? then "" else if r.bid.value.groupidType == "pap" then "1" else "0");
    assert fs' == fs + Part(r, 3);
  }

  // ----- reading back -----

  lemma DecimalIsPlain(n: int)
    ensures Plain(Decimal(n))
  {
    var m := if n < 0 then -n else n;
    DecimalIsDigits(m);
    assert forall i | 0 <= i < |Decimal(m)| :: Decimal(m)[i] != '&' && Decimal(m)[i] != '=' && Decimal(m)[i] != '\0';
  }

  lemma EncodedIsPlain(s: seq<Char8>)
    ensures Plain(Encoded(s)) && (Encoded(s) == "" <==> CString(s) == [])
  {
    UrlCodec.EncodeIsPlain(CString(s));
  }

  lemma NameIsPlain(name: string)
    requires forall i | 0 <= i < |name| :: 'a' <= name[i] <= 'z'
    ensures Plain(name)
  {
  }

  lemma FiveArePlain(fields: seq<Field>)
    requires |fields| == 5
    requires forall i | 0 <= i < 5 :: Plain(fields[i].value)
    requires forall i | 0 <= i < 5 :: forall j | 0 <= j < |fields[i].key| :: 'a' <= fields[i].key[j] <= 'z'
    ensures AllPlain(fields)
  {
    forall i | 0 <= i < 5 { NameIsPlain(fields[i].key); }
  }

  lemma RequestIsPlain(r: Request)
    requires Separable(r)
    ensures AllPlain(Part(r, 0))
  {
    hide Decimal, Encoded;
    EncodedIsPlain(r.id);
    DecimalIsPlain(r.at);
    if r.imp.Some? {
      EncodedIsPlain(r.imp.value.id);
      DecimalIsPlain(r.imp.value.kind);
    }
    NameIsPlain("");
    hide Plain;
    FiveArePlain(Part(r, 0));
  }

  lemma DeviceIsPlain(r: Request)
    requires Separable(r)
    ensures AllPlain(Part(r, 1))
  {
    hide Decimal, Encoded;
    DecimalIsPlain(if r.imp.Some? then r.imp.value.w else 0);
    DecimalIsPlain(if r.imp.Some? then r.imp.value.h else 0);
    NameIsPlain("");
    hide Plain;
    FiveArePlain(Part(r, 1));
  }

  lemma AppIsPlain(r: Request)
    requires Separable(r)
    ensures AllPlain(Part(r, 2))
  {
    hide Decimal, Encoded;
    DecimalIsPlain(r.deviceidtype);
    EncodedIsPlain(r.appid);
    DecimalIsPlain(r.connectiontype);
    DecimalIsPlain(r.os);
    DecimalIsPlain(r.location);
    hide Plain;
    FiveArePlain(Part(r, 2));
  }

  lemma ModelIsPlain(r: Request)
    requires Separable(r)
    ensures AllPlain(Part(r, 3))
  {
    hide Decimal, Encoded;
    DecimalIsPlain(r.devicetype);
    DecimalIsPlain(r.make);
    EncodedIsPlain(r.model);
    DecimalIsPlain(r.carrier);
    assert Plain("") && Plain("0") && Plain("1");
    hide Plain;
    FiveArePlain(Part(r, 3));
  }

  lemma FieldsArePlain(r: Request)
    requires Separable(r)
    ensures AllPlain(Fields(r))
  {
    hide Part, Plain;
    RequestIsPlain(r);
    DeviceIsPlain(r);
    AppIsPlain(r);
    ModelIsPlain(r);
  }

  // The twenty names, in their order.
  const NAMES: seq<string> := ["bid", "at", "mapid", "impid", "impt", "impm", "ip", "w", "h", "deviceid",
                               "deviceidtype", "appid", "nw", "os", "gp", "tp", "mb", "md", "op", "ds"]

  // Length, first and last character of the name at place i, as one number.
  function Mark(i: nat): nat {
    match i
    case 0 => 3_098_100 case 1 => 2_097_116 case 2 => 5_109_100 case 3 => 5_105_100 case 4 => 4_105_116
    case 5 => 4_105_109 case 6 => 2_105_112 case 7 => 1_119_119 case 8 => 1_104_104 case 9 => 8_100_100
    case 10 => 12_100_101 case 11 => 5_097_100 case 12 => 2_110_119 case 13 => 2_111_115 case 14 => 2_103_112
    case 15 => 2_116_112 case 16 => 2_109_098 case 17 => 2_109_100 case 18 => 2_111_112 case _ => 2_100_115
  }

  function MarkOf(s: string): nat
    requires s != ""
  {
    |s| * 1_000_000 + s[0] as int * 1000 + s[|s| - 1] as int
  }

  lemma NameMarks(i: nat)
    requires i < 20
    ensures |NAMES| == 20 && NAMES[i] != "" && MarkOf(NAMES[i]) == Mark(i)
    ensures Plain(NAMES[i])
  {
    assert forall k | 0 <= k < |NAMES[i]| :: 'a' <= NAMES[i][k] <= 'z';
    NameIsPlain(NAMES[i]);
  }

  lemma NamesApart(i: nat, j: nat)
    requires i < j < 20
    ensures |NAMES| == 20 && NAMES[i] != NAMES[j]
  {
    NameMarks(i);
    NameMarks(j);
    hide NAMES;
  }

  lemma PartNames(r: Request, k: nat, i: nat)
    requires k < 4 && i < 5
    ensures |NAMES| == 20 && Part(r, k)[i].key == NAMES[5 * k + i]
  {
    hide Decimal, Encoded;
  }

  lemma {:induction false} SkipFields(a: seq<Field>, b: seq<Field>, name: string)
    requires b != [] && forall i | 0 <= i < |a| :: a[i].key != name
    ensures FirstValue(a + b, name) == FirstValue(b, name)
  {
    if a == [] {
      assert a + b == b;
    } else {
      assert (a + b)[1..] == a[1..] + b;
      SkipFields(a[1..], b, name);
    }
  }

  // What the reader of a parameter finds.
  function Read(r: Request, name: string): Option<string> {
    Param(Join(Fields(r)), name + "=")
  }

  // An empty value is found only at the end of the string.
  lemma ReadAt(r: Request, i: nat)
    requires Separable(r) && i < 20
    ensures |NAMES| == 20 && |Fields(r)| == 20
    ensures var v := Fields(r)[i].value; Read(r, NAMES[i]) == if v == "" && i < 19 then None else Some(v)
  {
    hide Param, Join, FirstValue, AllPlain, Plain, Part, NAMES;
    FieldsArePlain(r);
    NameMarks(i);
    ParamIsFirstValue(Fields(r), NAMES[i]);
    forall j | 0 <= j <= i
      ensures Fields(r)[j].key == NAMES[j] && (j < i ==> NAMES[j] != NAMES[i])
    {
      NameMarks(j);
      PartNames(r, j / 5, j % 5);
      assert Fields(r)[j] == Part(r, j / 5)[j % 5];
      if j < i { NamesApart(j, i); }
    }
    hide Fields;
    FirstIs(Fields(r), i, NAMES[i]);
  }

  lemma FirstIs(fields: seq<Field>, i: nat, name: string)
    requires i < |fields| && fields[i].key == name && forall j | 0 <= j < i :: fields[j].key != name
    ensures FirstValue(fields, name) == if fields[i].value == "" && i + 1 < |fields| then None
            else Some(fields[i].value)
  {
    assert fields == fields[..i] + fields[i..];
    SkipFields(fields[..i], fields[i..], name);
  }

  // A value that is not empty is found as it is, an empty one is not found.
  function Found(value: string): Option<string> {
    if value == "" then None else Some(value)
  }

  lemma FieldAt(r: Request, k: nat, i: nat)
    requires k < 4 && i < 5
    ensures |Fields(r)| == 20 && Fields(r)[5 * k + i] == Part(r, k)[i]
  {
    hide Part;
  }

  lemma ReadPart(r: Request, k: nat, i: nat)
    requires Separable(r) && k < 4 && i < 5 && (k < 3 || i < 4)
    ensures |NAMES| == 20 && Read(r, NAMES[5 * k + i]) == Found(Part(r, k)[i].value)
  {
    hide Read, Part, Fields, NAMES;
    ReadAt(r, 5 * k + i);
    FieldAt(r, k, i);
  }

  lemma DecimalIsFound(n: int)
    ensures Found(Decimal(n)) == Some(Decimal(n))
  {
    DecimalIsDigits(if n < 0 then -n else n);
  }

  // Reading each of the twenty fields gives the request's own value, encoded or in decimal;
  // an empty one is not found.
  lemma RequestReadsBack(r: Request)
    requires Separable(r)
    ensures Read(r, "bid") == Found(Encoded(r.id))
    ensures Read(r, "at") == Some(Decimal(r.at))
    ensures Read(r, "mapid") == if r.bid.Some? then Found(r.bid.value.mapid) else None
    ensures Read(r, "impid") == if r.imp.Some? then Found(Encoded(r.imp.value.id)) else None
    ensures Read(r, "impt") == if r.imp.Some? then Some(Decimal(r.imp.value.kind)) else None
  {
    hide Read, Decimal, Encoded;
    ReadPart(r, 0, 0);
    ReadPart(r, 0, 1);
    ReadPart(r, 0, 2);
    ReadPart(r, 0, 3);
    ReadPart(r, 0, 4);
    DecimalIsFound(r.at);
    if r.imp.Some? { DecimalIsFound(r.imp.value.kind); }
    assert NAMES[0] == "bid" && NAMES[1] == "at" && NAMES[2] == "mapid" && NAMES[3] == "impid" && NAMES[4] == "impt";
  }

  lemma DeviceReadsBack(r: Request)
    requires Separable(r)
    ensures Read(r, "impm") == if r.imp.Some? then Found(r.imp.value.impm) else None
    ensures Read(r, "ip") == Found(r.ip)
    ensures Read(r, "w") == Some(Decimal(if r.imp.Some? then r.imp.value.w else 0))
    ensures Read(r, "h") == Some(Decimal(if r.imp.Some? then r.imp.value.h else 0))
    ensures Read(r, "deviceid") == Found(r.deviceid)
  {
    hide Read, Decimal, Encoded;
    ReadPart(r, 1, 0);
    ReadPart(r, 1, 1);
    ReadPart(r, 1, 2);
    ReadPart(r, 1, 3);
    ReadPart(r, 1, 4);
    DecimalIsFound(if r.imp.Some? then r.imp.value.w else 0);
    DecimalIsFound(if r.imp.Some? then r.imp.value.h else 0);
    assert NAMES[5] == "impm" && NAMES[6] == "ip" && NAMES[7] == "w" && NAMES[8] == "h";
    assert NAMES[9] == "deviceid";
  }

  lemma AppReadsBack(r: Request)
    requires Separable(r)
    ensures Read(r, "deviceidtype") == Some(Decimal(r.deviceidtype))
    ensures Read(r, "appid") == Found(Encoded(r.appid))
    ensures Read(r, "nw") == Some(Decimal(r.connectiontype))
    ensures Read(r, "os") == Some(Decimal(r.os))
    ensures Read(r, "gp") == Some(Decimal(r.location))
  {
    hide Read, Decimal, Encoded;
    ReadPart(r, 2, 0);
    ReadPart(r, 2, 1);
    ReadPart(r, 2, 2);
    ReadPart(r, 2, 3);
    ReadPart(r, 2, 4);
    DecimalIsFound(r.deviceidtype);
    DecimalIsFound(r.connectiontype);
    DecimalIsFound(r.os);
    DecimalIsFound(r.location);
    assert NAMES[10] == "deviceidtype" && NAMES[11] == "appid" && NAMES[12] == "nw";
    assert NAMES[13] == "os" && NAMES[14] == "gp";
  }

  // The last field is found even where it is empty, which it is without a bid.
  lemma ModelReadsBack(r: Request)
    requires Separable(r)
    ensures Read(r, "tp") == Some(Decimal(r.devicetype))
    ensures Read(r, "mb") == Some(Decimal(r.make))
    ensures Read(r, "md") == Found(Encoded(r.model))
    ensures Read(r, "op") == Some(Decimal(r.carrier))
    ensures Read(r, "ds") == Some(if r.bid.None? then "" else if r.bid.value.groupidType == "pap" then "1" else "0")
  {
    hide Read, Decimal, Encoded;
    ReadPart(r, 3, 0);
    ReadPart(r, 3, 1);
    ReadPart(r, 3, 2);
    ReadPart(r, 3, 3);
    ReadAt(r, 19);
    FieldAt(r, 3, 4);
    hide Fields;
    DecimalIsFound(r.devicetype);
    DecimalIsFound(r.make);
    DecimalIsFound(r.carrier);
    assert NAMES[15] == "tp" && NAMES[16] == "mb" && NAMES[17] == "md" && NAMES[18] == "op";
    assert NAMES[19] == "ds" && Fields(r)[15 + 4] == Part(r, 3)[4];
  }

  // Decoding what is read of an encoded field gives back what was put in; it is not found
  // exactly where that is empty.
  lemma EncodedReadsBack(s: seq<Char8>)
    ensures Found(Encoded(s)).None? <==> CString(s) == []
    ensures CString(s) != [] ==> Found(Encoded(s)) == Some(UrlCodec.Encode(CString(s)))
    ensures UrlCodec.Decode(UrlCodec.Encode(CString(s))) == CString(s)
  {
    EncodedIsPlain(s);
    UrlCodec.DecodeOfEncode(CString(s));
  }
}
