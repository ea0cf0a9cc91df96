/** The restaurant settings of the admin (src/hooks/useRestaurantData.ts):
    the time normaliser of the save, the merge of partial updates into the
    loaded restaurant, the save's check and payload, and the optimistic
    logo update with its revert. */
module RestaurantData {
  import opened Common
  import WorkingHours

  /** A row of `restavracije`. The optional chaining of the save reads the
      four descriptive texts as possibly missing. */
  datatype Restaurant = Restaurant(
    id: string,
    naziv: string,
    opis: Option<string>,
    lokacija: Option<string>,
    kontakt: Option<string>,
    email: Option<string>,
    delovniCasOd: string,
    delovniCasDo: string,
    logoUrl: Option<string>)

  /** `/^\d{2}:\d{2}$/`. */
  predicate IsHourMinute(s: string)
  {
    |s| == 5 && IsDigit(s[0]) && IsDigit(s[1]) && s[2] == ':' && IsDigit(s[3]) && IsDigit(s[4])
  }

  /** `/^\d{2}:\d{2}:\d{2}$/`. */
  predicate IsHourMinuteSecond(s: string)
  {
    |s| == 8 && IsHourMinute(s[..5]) && s[5] == ':' && IsDigit(s[6]) && IsDigit(s[7])
  }

  /** The save's `formatTime`: "HH:MM" gains ":00"; the empty string,
      "HH:MM:SS" and every other text pass unchanged. */
  function FormatTime(timeStr: string): (r: string)
    ensures IsHourMinute(timeStr) ==> r == timeStr + ":00" && IsHourMinuteSecond(r)
    ensures !IsHourMinute(timeStr) ==> r == timeStr
  {
    if timeStr == "" then timeStr
    else if IsHourMinute(timeStr) then
      var r := timeStr + ":00";
      assert r[..5] == timeStr;
      r
    else if IsHourMinuteSecond(timeStr) then timeStr
    else timeStr
  }

  /** Formatting twice is formatting once. */
  lemma FormatTimeIdempotent(timeStr: string)
    ensures FormatTime(FormatTime(timeStr)) == FormatTime(timeStr)
  {
    if IsHourMinute(timeStr) {
      assert |FormatTime(timeStr)| == 8;
    }
  }

  /** The hours engine, which keeps the first five characters, reads back
      the very clock time that was saved. */
  lemma FormatTimeTruncates(timeStr: string)
    requires IsHourMinute(timeStr)
    ensures WorkingHours.TruncateClock(FormatTime(timeStr)) == timeStr
    ensures WorkingHours.ClockOf(FormatTime(timeStr)) == WorkingHours.ClockOf(timeStr)
  {
    assert (timeStr + ":00")[..5] == timeStr;
  }

  /** A `Partial<RestaurantData>`: `Some` marks a supplied field. */
  datatype Changes = Changes(
    naziv: Option<string>,
    opis: Option<Option<string>>,
    lokacija: Option<Option<string>>,
    kontakt: Option<Option<string>>,
    email: Option<Option<string>>,
    delovniCasOd: Option<string>,
    delovniCasDo: Option<string>,
    logoUrl: Option<Option<string>>)

  const NoChanges := Changes(None, None, None, None, None, None, None, None)

  function Pick<T>(supplied: Option<T>, current: T): (r: T)
    ensures supplied.Some? ==> r == supplied.value
    ensures supplied.None? ==> r == current
  {
    if supplied.Some? then supplied.value else current
  }

  /** `{ ...prev, ...updates }`, or nothing while no restaurant is loaded.
      The id is not among the fields an update carries here. */
  function Merge(prev: Option<Restaurant>, u: Changes): (r: Option<Restaurant>)
    ensures r.None? <==> prev.None?
    ensures r.Some? ==> r.value.id == prev.value.id
  {
    if prev.None? then None
    else
      var p := prev.value;
      Some(Restaurant(p.id, Pick(u.naziv, p.naziv), Pick(u.opis, p.opis), Pick(u.lokacija, p.lokacija),
                      Pick(u.kontakt, p.kontakt), Pick(u.email, p.email), Pick(u.delovniCasOd, p.delovniCasOd),
                      Pick(u.delovniCasDo, p.delovniCasDo), Pick(u.logoUrl, p.logoUrl)))
  }

  /** A field after the merge: the supplied value, or the old one when none was supplied. */
  predicate Takes<T(==)>(supplied: Option<T>, before: T, after: T)
  {
    (supplied.Some? ==> after == supplied.value) && (supplied.None? ==> after == before)
  }

  /** The merge overwrites exactly the supplied fields and keeps the rest:
      an empty update changes nothing, and applying the same update twice is
      applying it once. */
  lemma MergeEffect(prev: Option<Restaurant>, u: Changes)
    ensures Merge(prev, NoChanges) == prev
    ensures Merge(Merge(prev, u), u) == Merge(prev, u)
    ensures prev.Some? ==>
      var p, r := prev.value, Merge(prev, u).value;
      r.id == p.id
      && Takes(u.naziv, p.naziv, r.naziv)
      && Takes(u.opis, p.opis, r.opis)
      && Takes(u.lokacija, p.lokacija, r.lokacija)
      && Takes(u.kontakt, p.kontakt, r.kontakt)
      && Takes(u.email, p.email, r.email)
      && Takes(u.delovniCasOd, p.delovniCasOd, r.delovniCasOd)
      && Takes(u.delovniCasDo, p.delovniCasDo, r.delovniCasDo)
      && Takes(u.logoUrl, p.logoUrl, r.logoUrl)
  {
  }

  /** `value?.trim() || ''`. */
  function TrimmedOrEmpty(s: Option<string>): (r: string)
    ensures s.None? ==> r == ""
    ensures s.Some? ==> r == Trim(s.value)
  {
    if s.Some? then Trim(s.value) else ""
  }

  /** What the save writes. */
  datatype Payload = Payload(
    naziv: string,
    opis: string,
    lokacija: string,
    kontakt: string,
    email: string,
    delovniCasOd: string,
    delovniCasDo: string,
    logoUrl: Option<string>)

  function PayloadOf(r: Restaurant): Payload
  {
    Payload(Trim(r.naziv), TrimmedOrEmpty(r.opis), TrimmedOrEmpty(r.lokacija), TrimmedOrEmpty(r.kontakt),
            TrimmedOrEmpty(r.email), FormatTime(r.delovniCasOd), FormatTime(r.delovniCasDo), r.logoUrl)
  }

  /** The restaurant as the database holds it after writing `p`. */
  function Stored(id: string, p: Payload): Restaurant
  {
    Restaurant(id, p.naziv, Some(p.opis), Some(p.lokacija), Some(p.kontakt), Some(p.email),
               p.delovniCasOd, p.delovniCasDo, p.logoUrl)
  }

  /** Saving what was saved writes the same payload again: trimming and
      time formatting are both idempotent. */
  lemma SaveIdempotent(r: Restaurant)
    ensures PayloadOf(Stored(r.id, PayloadOf(r))) == PayloadOf(r)
  {
    var p := PayloadOf(r);
    TrimIdempotent(r.naziv);
    TrimmedOrEmptyIdempotent(r.opis);
    TrimmedOrEmptyIdempotent(r.lokacija);
    TrimmedOrEmptyIdempotent(r.kontakt);
    TrimmedOrEmptyIdempotent(r.email);
    FormatTimeIdempotent(r.delovniCasOd);
    FormatTimeIdempotent(r.delovniCasDo);
    var q := PayloadOf(Stored(r.id, p));
    assert q.naziv == p.naziv && q.opis == p.opis && q.lokacija == p.lokacija && q.kontakt == p.kontakt;
    assert q.email == p.email && q.delovniCasOd == p.delovniCasOd && q.delovniCasDo == p.delovniCasDo;
  }

  lemma TrimmedOrEmptyIdempotent(s: Option<string>)
    ensures TrimmedOrEmpty(Some(TrimmedOrEmpty(s))) == TrimmedOrEmpty(s)
  {
    if s.Some? {
      TrimIdempotent(s.value);
    }
  }

  datatype SaveOutcome = NothingToSave | MissingName | WriteFailed | Saved(payload: Payload)

  class RestaurantEditor {
    var restaurant: Option<Restaurant>
    var saving: bool

    constructor (loaded: Option<Restaurant>)
      ensures restaurant == loaded && !saving
    {
      restaurant := loaded;
      saving := false;
    }

    /** `updateRestaurant`. */
    method UpdateRestaurant(updates: Changes)
      modifies this
      ensures restaurant == Merge(old(restaurant), updates)
      ensures saving == old(saving)
    {
      restaurant := Merge(restaurant, updates);
    }

    /** `saveRestaurant`. `writeFailed` is the outcome of the update and
        `refetched` what the reload that follows a successful write returns
        (`None` when it fails and leaves the state alone). A name that is
        blank after trimming stops the save before any write. */
    method SaveRestaurant(writeFailed: bool, refetched: Option<Restaurant>) returns (outcome: SaveOutcome)
      modifies this
      ensures old(restaurant).None? ==> outcome == NothingToSave && restaurant == old(restaurant) && saving == old(saving)
      ensures old(restaurant).Some? ==> !saving
      ensures old(restaurant).Some? && AllWhitespace(old(restaurant).value.naziv) ==>
        outcome == MissingName && restaurant == old(restaurant)
      ensures old(restaurant).Some? && !AllWhitespace(old(restaurant).value.naziv) ==>
        (writeFailed ==> outcome == WriteFailed && restaurant == old(restaurant))
        && (!writeFailed ==>
              outcome == Saved(PayloadOf(old(restaurant).value))
              && restaurant == (if refetched.Some? then refetched else old(restaurant)))
      ensures outcome.Saved? ==> outcome.payload.naziv != ""
    {
      if restaurant.None? {
        return NothingToSave;
      }
      saving := true;
      var current := restaurant.value;
      TrimEmptyIffBlank(current.naziv);
      if Trim(current.naziv) == "" {
        saving := false;
        return MissingName;
      }
      var updatedData := PayloadOf(current);
      if writeFailed {
        saving := false;
        return WriteFailed;
      }
      if refetched.Some? {
        restaurant := refetched;
      }
      saving := false;
      return Saved(updatedData);
    }

    /** `handleLogoUpload`: the new logo is shown at once and the previous
        one restored when the write fails. */
    method HandleLogoUpload(url: string, writeFailed: bool)
      modifies this
      ensures old(restaurant).None? ==> restaurant == old(restaurant)
      ensures old(restaurant).Some? ==>
        restaurant == if writeFailed then old(restaurant) else Some(old(restaurant).value.(logoUrl := Some(url)))
      ensures saving == old(saving)
    {
      if restaurant.None? {
        return;
      }
      var previous := restaurant.value;
      restaurant := Some(restaurant.value.(logoUrl := Some(url)));
      if writeFailed {
        restaurant := Some(restaurant.value.(logoUrl := previous.logoUrl));
      }
    }
  }
}
