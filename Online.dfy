/**
 * The online-visitors widget (online.js): the display offset taken from the
 * configuration, the visitor and tab ids kept in web storage, the choice of
 * reading in a server reply, and the count, label and offline state the
 * widget shows.
 *
 * JavaScript numbers are reals here; a number that is NaN or infinite is
 * `None`.  Storage is a map from keys to strings; the random bytes an id is
 * made of are a parameter.  The network, timers and page-lifecycle events
 * are not part of this model.
 */
module Online {
  import opened Wrappers

  // ---------------------------------------------------------------- offset

  /** The `displayOffset` default. */
  const DefaultOffset: real := 11.0

  /**
   * `DISPLAY_OFFSET`: the configured offset when `Number(cfg.displayOffset)`
   * is finite (`converted` is that conversion, `None` for NaN or an
   * infinity), and 11 otherwise.
   */
  function DisplayOffset(converted: Option<real>): (r: real)
    ensures converted.Some? ==> r == converted.value
    ensures converted.None? ==> r == DefaultOffset
  {
    match converted
    case Some(x) => x
    case None => DefaultOffset
  }

  // ---------------------------------------------------------------- ids

  newtype Byte = b: int | 0 <= b < 256

  /** The storage keys and id prefixes of the visitor id and the tab id. */
  const VisitorKey := "rv_vid"
  const TabKey := "rv_tid"
  const VisitorPrefix := "v_"
  const TabPrefix := "t_"

  /** The number of random bytes in a fresh id. */
  const IdBytes := 16

  predicate IsLowerHex(c: char)
  {
    '0' <= c <= '9' || 'a' <= c <= 'f'
  }

  /** The lowercase hexadecimal digit of `d`. */
  function HexDigit(d: int): (c: char)
    requires 0 <= d < 16
    ensures IsLowerHex(c)
  {
    if d < 10 then ('0' as int + d) as char else ('a' as int + d - 10) as char
  }

  /** The value of a lowercase hexadecimal digit. */
  function HexValue(c: char): (d: int)
    requires IsLowerHex(c)
    ensures 0 <= d < 16
  {
    if c <= '9' then c as int - '0' as int else c as int - 'a' as int + 10
  }

  lemma HexValueOfDigit(d: int)
    requires 0 <= d < 16
    ensures HexValue(HexDigit(d)) == d
  {
  }

  /** `b.toString(16).padStart(2, "0")`: two lowercase hex digits, high one first. */
  function HexByte(b: Byte): (s: string)
    ensures |s| == 2 && IsLowerHex(s[0]) && IsLowerHex(s[1])
    ensures HexValue(s[0]) * 16 + HexValue(s[1]) == b as int
  {
    HexValueOfDigit(b as int / 16);
    HexValueOfDigit(b as int % 16);
    [HexDigit(b as int / 16), HexDigit(b as int % 16)]
  }

  /** The bytes written out and joined: two lowercase hex digits per byte. */
  function HexEncode(bytes: seq<Byte>): (s: string)
    ensures |s| == 2 * |bytes|
    ensures forall k :: 0 <= k < |s| ==> IsLowerHex(s[k])
  {
    if bytes == [] then "" else HexByte(bytes[0]) + HexEncode(bytes[1..])
  }

  /** Reads pairs of lowercase hex digits back as bytes. */
  function HexDecode(s: string): seq<Byte>
    requires |s| % 2 == 0
    requires forall k :: 0 <= k < |s| ==> IsLowerHex(s[k])
  {
    if s == [] then []
    else [(HexValue(s[0]) * 16 + HexValue(s[1])) as Byte] + HexDecode(s[2..])
  }

  /** A fresh id determines the random bytes it was made from. */
  lemma {:induction false} HexRoundTrip(bytes: seq<Byte>)
    ensures HexDecode(HexEncode(bytes)) == bytes
  {
    if bytes != [] {
      var s := HexEncode(bytes);
      assert s[..2] == HexByte(bytes[0]) && s[2..] == HexEncode(bytes[1..]);
      HexRoundTrip(bytes[1..]);
      assert bytes == [bytes[0]] + bytes[1..];
    }
  }

  /**
   * `storage.getItem(key)` read as a condition: the stored string when there
   * is one and it is not empty (an empty string is falsy and is replaced).
   */
  function StoredId(items: map<string, string>, key: string): Option<string>
  {
    if key in items && items[key] != "" then Some(items[key]) else None
  }

  /**
   * `getOrCreateId` on a storage holding `items`: the id it returns and the
   * storage contents it leaves.
   */
  function IdLookup(items: map<string, string>, key: string, prefix: string, random: seq<Byte>):
    (result: (string, map<string, string>))
    requires |random| == IdBytes
    ensures StoredId(items, key).Some? ==> result == (items[key], items)
    ensures StoredId(items, key).None? ==>
      && result.0 == prefix + HexEncode(random)
      && |result.0| == |prefix| + 2 * IdBytes
      && result.0[..|prefix|] == prefix
      && HexDecode(result.0[|prefix|..]) == random
      && result.1 == items[key := result.0]
    ensures StoredId(result.1, key) == Some(result.0)
  {
    HexRoundTrip(random);
    match StoredId(items, key)
    case Some(existing) => (existing, items)
    case None =>
      var id := prefix + HexEncode(random);
      assert id[|prefix|..] == HexEncode(random);
      (id, items[key := id])
  }

  /**
   * A second `getOrCreateId` on the same key returns the id of the first and
   * leaves the storage as the first left it, whatever random bytes it draws.
   */
  lemma IdLookupIdempotent(items: map<string, string>, key: string, prefix: string,
                           first: seq<Byte>, second: seq<Byte>)
    requires |first| == IdBytes && |second| == IdBytes
    ensures var (id, after) := IdLookup(items, key, prefix, first);
            IdLookup(after, key, prefix, second) == (id, after)
  {
    var (id, after) := IdLookup(items, key, prefix, first);
    assert StoredId(after, key) == Some(id);
  }

  /** A web storage area (`localStorage` or `sessionStorage`). */
  class Storage {
    var items: map<string, string>

    constructor (items: map<string, string>)
      ensures this.items == items
    {
      this.items := items;
    }
  }

  /**
   * `getOrCreateId(storage, key, prefix)`: the stored id when there is one,
   * otherwise the prefix and the random bytes in hex, which it also stores.
   */
  method GetOrCreateId(storage: Storage, key: string, prefix: string, random: seq<Byte>) returns (id: string)
    requires |random| == IdBytes
    modifies storage
    ensures (id, storage.items) == IdLookup(old(storage.items), key, prefix, random)
    ensures StoredId(storage.items, key) == Some(id)
  {
    var existing := StoredId(storage.items, key);
    if existing.Some? {
      return existing.value;
    }
    id := prefix + HexEncode(random);
    storage.items := storage.items[key := id];
  }

  /** The two ids made when the script starts: the visitor's in local storage, the tab's in session storage. */
  method CreateIds(local: Storage, session: Storage, visitorRandom: seq<Byte>, tabRandom: seq<Byte>)
    returns (visitorId: string, tabId: string)
    requires local != session
    requires |visitorRandom| == IdBytes && |tabRandom| == IdBytes
    modifies local, session
    ensures (visitorId, local.items) == IdLookup(old(local.items), VisitorKey, VisitorPrefix, visitorRandom)
    ensures (tabId, session.items) == IdLookup(old(session.items), TabKey, TabPrefix, tabRandom)
  {
    visitorId := GetOrCreateId(local, VisitorKey, VisitorPrefix, visitorRandom);
    tabId := GetOrCreateId(session, TabKey, TabPrefix, tabRandom);
  }

  // ---------------------------------------------------------------- replies

  /**
   * A field of the reply's JSON object: absent (`undefined`), `null`, or a
   * value, given by what `Number` makes of it (`None` for NaN or an infinity).
   */
  datatype Field = Undefined | Null | Value(asNumber: Option<real>)

  /** The reply `{ siteOnline, pageOnline, online }`. */
  datatype Reply = Reply(siteOnline: Field, pageOnline: Field, online: Field)

  /** How a ping ended: a reply parsed from a successful response, or any failure on the way. */
  datatype Response = Failed | Received(data: Reply)

  predicate Nullish(f: Field)
  {
    f.Undefined? || f.Null?
  }

  /** `Number(f)`: NaN for `undefined`, 0 for `null`. */
  function ToNumber(f: Field): Option<real>
  {
    match f
    case Undefined => None
    case Null => Some(0.0)
    case Value(n) => n
  }

  /**
   * The reading `ping` takes from a reply: `pageOnline ?? online` in "page"
   * mode, `siteOnline ?? online` in any other mode.
   */
  function ReadingFor(mode: string, data: Reply): (raw: Option<real>)
    ensures mode == "page" && !Nullish(data.pageOnline) ==> raw == ToNumber(data.pageOnline)
    ensures mode != "page" && !Nullish(data.siteOnline) ==> raw == ToNumber(data.siteOnline)
    ensures (if mode == "page" then Nullish(data.pageOnline) else Nullish(data.siteOnline)) ==>
      raw == ToNumber(data.online)
  {
    var chosen := if mode == "page" then data.pageOnline else data.siteOnline;
    ToNumber(if Nullish(chosen) then data.online else chosen)
  }

  /** The page count is never consulted outside "page" mode, nor the site count in it. */
  lemma ReadingIgnoresOtherMode(mode: string, data: Reply, other: Field)
    ensures mode != "page" ==> ReadingFor(mode, data.(pageOnline := other)) == ReadingFor(mode, data)
    ensures mode == "page" ==> ReadingFor(mode, data.(siteOnline := other)) == ReadingFor(mode, data)
  {
  }

  // ---------------------------------------------------------------- display

  const Singular := "külastaja online"
  const Plural := "külastajat online"

  /** `etLabel(n)`: the singular label for exactly one visitor, the plural otherwise. */
  function EtLabel(n: real): (s: string)
    ensures s == Singular <==> n == 1.0
    ensures s == Plural <==> n != 1.0
  {
    if n == 1.0 then Singular else Plural
  }

  /** A reading `setCount` shows: finite and not negative. */
  predicate IsValidReading(raw: Option<real>)
  {
    raw.Some? && raw.value >= 0.0
  }

  function Max(a: real, b: real): real
  {
    if a >= b then a else b
  }

  /** A real that is an integer. */
  predicate IsWhole(x: real)
  {
    x == x.Floor as real
  }

  /**
   * `Math.max(0, Math.floor(base)) + DISPLAY_OFFSET`: the offset plus the
   * whole number of visitors in the reading.
   */
  function ShownCount(base: real, offset: real): (r: real)
    requires base >= 0.0
    ensures IsWhole(r - offset) && r - offset >= 0.0
    ensures r - offset <= base < r - offset + 1.0
  {
    Max(0.0, base.Floor as real) + offset
  }

  /**
   * The fallback after a failed ping feeds `max(0, lastShown - offset)` back
   * to `setCount`, and that shows the same count again.
   */
  lemma ReshowRoundTrip(base: real, offset: real)
    requires base >= 0.0
    ensures var shown := ShownCount(base, offset);
      var fed := Max(0.0, shown - offset);
      fed >= 0.0 && ShownCount(fed, offset) == shown
  {
    var shown := ShownCount(base, offset);
    assert (shown - offset).Floor as real == shown - offset;
  }

  /** The text of the count: the placeholder "—" or a number. */
  datatype CountText = Dash | Number(value: real)

  /** The widget and the closure variable `lastShown`. */
  class Widget {
    const offset: real
    var lastShown: Option<real>
    var count: CountText
    var labelText: string
    var offline: bool
    var bumped: bool

    /**
     * The widget shows exactly `lastShown` (or the placeholder and the plural
     * label while there is none), and a shown count is the offset plus a
     * whole, non-negative number of visitors.
     */
    ghost predicate Valid()
      reads this
    {
      match lastShown
      case None => count == Dash && labelText == Plural
      case Some(s) => IsWhole(s - offset) && s - offset >= 0.0 && count == Number(s) && labelText == EtLabel(s)
    }

    /** `ensureWidget` creating the pill: offline, "—", plural label, nothing shown yet. */
    constructor (converted: Option<real>)
      ensures Valid()
      ensures offset == DisplayOffset(converted)
      ensures lastShown == None && count == Dash && labelText == Plural && offline && !bumped
    {
      offset := DisplayOffset(converted);
      lastShown := None;
      count := Dash;
      labelText := Plural;
      offline := true;
      bumped := false;
    }

    /**
     * `setCount(raw)`: a valid reading is shown (offset added), remembered in
     * `lastShown` and bumped; any other reading leaves everything as it is,
     * which is the placeholder while nothing has been shown.
     */
    method SetCount(raw: Option<real>)
      requires Valid()
      modifies this
      ensures Valid() && offline == old(offline)
      ensures IsValidReading(raw) ==>
        var shown := ShownCount(raw.value, offset);
        lastShown == Some(shown) && count == Number(shown) && labelText == EtLabel(shown) && bumped
      ensures !IsValidReading(raw) ==>
        && lastShown == old(lastShown) && count == old(count) && labelText == old(labelText) && bumped == old(bumped)
        && (old(lastShown).None? ==> count == Dash && labelText == Plural)
    {
      if !IsValidReading(raw) {
        if lastShown.None? {
          count := Dash;
          labelText := Plural;
        }
        return;
      }
      var shown := ShownCount(raw.value, offset);
      lastShown := Some(shown);
      count := Number(shown);
      labelText := EtLabel(shown);
      bumped := true;
    }

    /** `setOnline(b)`: the "is-offline" class is set exactly when `b` is false. */
    method SetOnline(isOnline: bool)
      modifies this
      ensures offline == !isOnline
      ensures lastShown == old(lastShown) && count == old(count) && labelText == old(labelText) && bumped == old(bumped)
    {
      offline := !isOnline;
    }

    /**
     * The result handling of `ping`: a reply's reading for `mode` is shown and
     * the widget goes online; on any failure the widget goes offline and the
     * last count, if there was one, is shown again unchanged.
     */
    method Ping(mode: string, response: Response)
      requires Valid()
      modifies this
      ensures Valid()
      ensures response.Received? ==>
        && !offline
        && var raw := ReadingFor(mode, response.data);
        && (IsValidReading(raw) ==> lastShown == Some(ShownCount(raw.value, offset)) && bumped)
        && (!IsValidReading(raw) ==>
              lastShown == old(lastShown) && count == old(count) && labelText == old(labelText) && bumped == old(bumped))
      ensures response.Failed? ==>
        && offline
        && lastShown == old(lastShown) && count == old(count) && labelText == old(labelText)
        && (old(lastShown).Some? ==> bumped)
        && (old(lastShown).None? ==> bumped == old(bumped))
    {
      match response
      case Received(data) =>
        SetCount(ReadingFor(mode, data));
        SetOnline(true);
      case Failed =>
        SetOnline(false);
        var fallback := if lastShown.None? then None else Some(Max(0.0, lastShown.value - offset));
        SetCount(fallback);
    }
  }
}
