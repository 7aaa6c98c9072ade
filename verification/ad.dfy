/** The banner and slider API of src/apps/controllers/apis/ad.js: creating, updating,
    reading and deleting one advertisement. The collection is a map from id to document;
    the two ad types differ only in the word used in messages. */
module AdApi {
  import opened Js
  import opened Http

  /** A stored banner or slider (src/apps/models/banner.js, slider.js). */
  datatype AdDoc = AdDoc(image: string, url: string, target: bool, position: int, publish: bool)

  /** The form fields `createAd` and `updateAd` read from the request body. `image` is the
      path the upload middleware put there, when a file came with the request. */
  datatype AdForm = AdForm(url: Option<string>, target: JsValue, position: JsValue, publish: JsValue, image: Option<string>)

  /** How a save fails: a schema validation error or anything else. */
  datatype SaveError = ValidationError(message: string) | OtherError(message: string)

  /** The `url` default of the schema. */
  const DEFAULT_URL: string := "#"
  const INTERNAL_ERROR: string := "Internal server error"

  /** `field === 'true'` */
  predicate IsTrueText(v: JsValue) {
    v == Str("true")
  }

  /** `parseInt(position) || 0` */
  function Position(v: JsValue): (p: int)
    ensures ParseIntValue(v).None? ==> p == 0
    ensures ParseIntValue(v).Some? ==> p == ParseIntValue(v).value
  {
    match ParseIntValue(v)
    case None => 0
    case Some(n) => if n != 0 then n else 0
  }

  /** The document `createAd` builds from a form that has an image. */
  function NewAd(form: AdForm): (d: AdDoc)
    requires Present(form.image)
    ensures d.image == form.image.value
    ensures d.url == (if form.url.Some? then form.url.value else DEFAULT_URL)
    ensures (d.target <==> IsTrueText(form.target)) && (d.publish <==> IsTrueText(form.publish))
    ensures d.position == Position(form.position)
  {
    AdDoc(form.image.value, if form.url.Some? then form.url.value else DEFAULT_URL,
          IsTrueText(form.target), Position(form.position), IsTrueText(form.publish))
  }

  /** `createAd(Model, req, res, adType)`: `newId` is the id the database assigns and
      `saveError` the failure of `save`, if any. */
  function Create(ads: map<string, AdDoc>, form: AdForm, adType: string, newId: string,
                  saveError: Option<SaveError>): (r: (Reply, map<string, AdDoc>))
    requires newId !in ads
    ensures !Present(form.image) ==> r == (Reply(400, "Image is required"), ads)
    ensures r.1 != ads <==> Present(form.image) && saveError.None?
    ensures r.1 != ads ==> r.0 == Reply(201, adType + " created successfully") && r.1 == ads[newId := NewAd(form)]
    ensures Present(form.image) && saveError.Some? ==>
              r.0.status == (if saveError.value.ValidationError? then 400 else 500)
  {
    if !Present(form.image) then (Reply(400, "Image is required"), ads)
    else match saveError
      case Some(ValidationError(m)) => (Reply(400, "Validation Error: " + m), ads)
      case Some(OtherError(_)) => (Reply(500, INTERNAL_ERROR), ads)
      case None => (Reply(201, adType + " created successfully"), ads[newId := NewAd(form)])
  }

  /** The fields `updateAd` writes: the flags and position always, the url when the form has
      one (an undefined field is dropped from the update), the image only when a new one
      came. */
  function Revise(d: AdDoc, form: AdForm): (e: AdDoc)
    ensures e.image == (if Present(form.image) then form.image.value else d.image)
    ensures e.url == (if form.url.Some? then form.url.value else d.url)
    ensures (e.target <==> IsTrueText(form.target)) && (e.publish <==> IsTrueText(form.publish))
    ensures e.position == Position(form.position)
  {
    AdDoc(if Present(form.image) then form.image.value else d.image,
          if form.url.Some? then form.url.value else d.url,
          IsTrueText(form.target), Position(form.position), IsTrueText(form.publish))
  }

  /** `updateAd(Model, req, res, adType)`; `saveError` is a failed write (a validator, say). */
  function Update(ads: map<string, AdDoc>, id: string, form: AdForm, adType: string,
                  saveError: Option<string>): (r: (Reply, map<string, AdDoc>))
    ensures r.1.Keys == ads.Keys
    ensures saveError.Some? ==> r == (Reply(500, INTERNAL_ERROR), ads)
    ensures saveError.None? && id !in ads ==> r == (Reply(404, adType + " not found"), ads)
    ensures saveError.None? && id in ads ==>
              r == (Reply(200, adType + " updated successfully"), ads[id := Revise(ads[id], form)])
  {
    if saveError.Some? then (Reply(500, INTERNAL_ERROR), ads)
    else if id !in ads then (Reply(404, adType + " not found"), ads)
    else (Reply(200, adType + " updated successfully"), ads[id := Revise(ads[id], form)])
  }

  /** `getAdDetail`: the document, or 404. */
  function Detail(ads: map<string, AdDoc>, id: string, adType: string): (r: (Reply, Option<AdDoc>))
    ensures r.1.Some? <==> id in ads
    ensures r.1.Some? ==> r == (Reply(200, "Get " + adType + " detail success"), Some(ads[id]))
    ensures r.1.None? ==> r.0 == Reply(404, adType + " not found")
  {
    if id in ads then (Reply(200, "Get " + adType + " detail success"), Some(ads[id]))
    else (Reply(404, adType + " not found"), None)
  }

  /** `deleteAd`: removes the document, or answers 404 and changes nothing. */
  function Delete(ads: map<string, AdDoc>, id: string, adType: string): (r: (Reply, map<string, AdDoc>))
    ensures id !in r.1 && r.1.Keys == ads.Keys - {id}
    ensures forall k :: k in r.1 ==> r.1[k] == ads[k]
    ensures r.0.status == (if id in ads then 200 else 404)
    ensures id !in ads ==> r.1 == ads
  {
    if id in ads then (Reply(200, adType + " deleted successfully"), ads - {id})
    else (Reply(404, adType + " not found"), ads)
  }

  // ----- Properties -----

  /** The flags are set only by the exact text `true`; `"1"`, `"on"` and a JSON `true` all
      give false. */
  lemma OnlyTrueTextSetsFlags(form: AdForm)
    requires Present(form.image)
    requires form.target in {Str("1"), Str("on"), Bool(true), Str("TRUE")}
    ensures !NewAd(form).target
  {
  }

  /** `parseInt` reads a leading run of decimal digits and ignores what follows it (unless
      that is an `x` after a lone `0`, which would select base 16). */
  lemma PositionReadsLeadingDigits(digits: string, rest: string)
    requires digits != [] && forall i :: 0 <= i < |digits| ==> '0' <= digits[i] <= '9'
    requires rest == [] || !('0' <= rest[0] <= '9' || rest[0] == 'x' || rest[0] == 'X')
    ensures Position(Str(digits + rest)) == DigitsValue(digits, 10)
  {
    NotHexStart(digits, rest);
    ParseUnsigned(digits + rest);
    LeadingValue(digits, rest);
  }

  lemma NotHexStart(digits: string, rest: string)
    requires digits != [] && forall i :: 0 <= i < |digits| ==> '0' <= digits[i] <= '9'
    requires rest == [] || !('0' <= rest[0] <= '9' || rest[0] == 'x' || rest[0] == 'X')
    ensures var s := digits + rest;
            && s != [] && '0' <= s[0] <= '9'
            && !(|s| >= 2 && s[0] == '0' && (s[1] == 'x' || s[1] == 'X'))
  {
    var s := digits + rest;
    assert s[0] == digits[0];
    if |s| >= 2 && |digits| == 1 { assert s[1] == rest[0]; }
    if |digits| >= 2 { assert s[1] == digits[1]; }
  }

  /** Text starting with a digit (and not `0x`) parses as its leading digit run. */
  lemma ParseUnsigned(s: string)
    requires s != [] && '0' <= s[0] <= '9'
    requires !(|s| >= 2 && s[0] == '0' && (s[1] == 'x' || s[1] == 'X'))
    ensures LeadingDigits(s, 10).Some?
    ensures ParseInt(s) == Some(LeadingDigits(s, 10).value as int)
  {
    assert !IsWhite(s[0]);
    var t := TrimStart(s);
    assert t == s;
    assert !(t[0] == '-' || t[0] == '+');
    assert IsRadixDigit(s[0], 10);
    assert DigitRun(s, 10) > 0;
  }

  lemma LeadingValue(digits: string, rest: string)
    requires digits != [] && forall i :: 0 <= i < |digits| ==> '0' <= digits[i] <= '9'
    requires rest == [] || !('0' <= rest[0] <= '9')
    ensures LeadingDigits(digits + rest, 10) == Some(DigitsValue(digits, 10))
  {
    LeadingRun(digits, rest);
    assert (digits + rest)[..|digits|] == digits;
  }

  lemma {:induction false} LeadingRun(digits: string, rest: string)
    requires forall i :: 0 <= i < |digits| ==> '0' <= digits[i] <= '9'
    requires rest == [] || !('0' <= rest[0] <= '9')
    ensures DigitRun(digits + rest, 10) == |digits|
  {
    if digits != [] {
      assert (digits + rest)[1..] == digits[1..] + rest;
      LeadingRun(digits[1..], rest);
    } else {
      assert digits + rest == rest;
    }
  }

  /** An update that omits the flags and the position resets them to false, false and 0,
      whatever the stored document held; the stored image stays when no new one came. */
  lemma UpdateResetsOmitted(ads: map<string, AdDoc>, id: string, url: Option<string>, adType: string)
    requires id in ads
    ensures var after := Update(ads, id, AdForm(url, Undefined, Undefined, Undefined, None), adType, None).1[id];
            && !after.target && !after.publish && after.position == 0
            && after.image == ads[id].image
  {
  }

  /** Sending the same update twice leaves the collection as after the first. */
  lemma UpdateIdempotent(ads: map<string, AdDoc>, id: string, form: AdForm, adType: string)
    ensures var once := Update(ads, id, form, adType, None);
            var twice := Update(once.1, id, form, adType, None);
            twice == once
  {
    if id in ads {
      var d := Revise(ads[id], form);
      assert Revise(d, form) == d;
      assert ads[id := d][id := d] == ads[id := d];
    }
  }

  /** An update that sends every field of a create form stores what creating from that
      form stores: the two coercions agree. */
  lemma UpdateMatchesCreate(ads: map<string, AdDoc>, id: string, form: AdForm)
    requires id in ads && Present(form.image) && form.url.Some?
    ensures Revise(ads[id], form) == NewAd(form)
  {
  }

  /** A created ad can be read back; a deleted one cannot, and deleting it again is 404. */
  lemma CreateDetailDelete(ads: map<string, AdDoc>, form: AdForm, adType: string, newId: string)
    requires newId !in ads && Present(form.image)
    ensures var created := Create(ads, form, adType, newId, None).1;
            var deleted := Delete(created, newId, adType).1;
            && Detail(created, newId, adType).1 == Some(NewAd(form))
            && Detail(deleted, newId, adType).0.status == 404
            && Delete(deleted, newId, adType).0.status == 404
            && deleted == ads
  {
    var created := Create(ads, form, adType, newId, None).1;
    assert created - {newId} == ads;
  }
}
