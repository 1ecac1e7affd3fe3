/**
 The fingerprint of a posting request: the eight fields the service canonicalizes. Their canonical texts are
 equal exactly for equal requests, which is why the posting model lets a request stand for its fingerprint.
 */
module PostingFingerprint {
  import opened Options
  import opened Texts
  import opened Json
  import opened CanonicalJson
  import opened RequestFingerprint
  import opened Posting
  import LedgerBook

  const KIND_KEY: Text := Ascii("kind")
  const SOURCE_KEY: Text := Ascii("sourceWalletId")
  const TARGET_KEY: Text := Ascii("targetWalletId")
  const ORIGINAL_KEY: Text := Ascii("originalTransactionId")
  const AMOUNT_KEY: Text := Ascii("amountMinor")
  const CURRENCY_KEY: Text := Ascii("currency")
  const CATEGORY_KEY: Text := Ascii("categoryId")
  const DESCRIPTION_KEY: Text := Ascii("description")

  /** How ids, currencies and amounts are spelled in a body. */
  datatype Spelling = Spelling(id: LedgerBook.Id -> Text, currency: Currency -> Text, amount: nat -> Text)

  /** Different things are spelled differently, and an amount is a number. */
  ghost predicate Faithful(sp: Spelling) {
    && (forall a, b :: sp.id(a) == sp.id(b) ==> a == b)
    && (forall a, b :: sp.currency(a) == sp.currency(b) ==> a == b)
    && (forall a, b :: sp.amount(a) == sp.amount(b) ==> a == b)
    && (forall n :: IsNumberToken(sp.amount(n)))
  }

  function KindText(kind: Kind): Text {
    match kind
    case Transfer => Ascii("TRANSFER")
    case Deposit => Ascii("DEPOSIT")
    case Withdrawal => Ascii("WITHDRAWAL")
    case Fee => Ascii("FEE")
    case Reversal => Ascii("REVERSAL")
    case Adjustment => Ascii("ADJUSTMENT")
  }

  function OptionalId(sp: Spelling, id: Option<LedgerBook.Id>): Value {
    if id.Some? then Str(sp.id(id.value)) else Undefined
  }

  function OptionalText(t: Option<Text>): Value {
    if t.Some? then Str(t.value) else Undefined
  }

  /** The object `fingerprintRequest` is called with. */
  function BodyFields(sp: Spelling, r: Request): seq<Entry<Value>> {
    [Entry(KIND_KEY, Str(KindText(r.kind))),
     Entry(SOURCE_KEY, OptionalId(sp, r.source)),
     Entry(TARGET_KEY, OptionalId(sp, r.target)),
     Entry(ORIGINAL_KEY, OptionalId(sp, r.original)),
     Entry(AMOUNT_KEY, Num(sp.amount(r.amount))),
     Entry(CURRENCY_KEY, Str(sp.currency(r.currency))),
     Entry(CATEGORY_KEY, OptionalId(sp, r.category)),
     Entry(DESCRIPTION_KEY, OptionalText(r.description))]
  }

  function Body(sp: Spelling, r: Request): Value {
    Obj(BodyFields(sp, r))
  }

  /** A value the body carries under a key. */
  predicate Carries(body: Value, key: Text, value: Value) {
    body.Obj? && Entry(key, value) in body.fields
  }

  function OrUndefined(t: Option<Text>): Value {
    match t
    case Some(text) => Str(text)
    case None => Undefined
  }

  function Spelled(sp: Spelling, id: Option<LedgerBook.Id>): Option<Text> {
    match id
    case Some(i) => Some(sp.id(i))
    case None => None
  }

  lemma Slots(sp: Spelling, r: Request)
    ensures |BodyFields(sp, r)| == 8 && forall i :: 0 <= i < 8 ==> BodyFields(sp, r)[i] in BodyFields(sp, r)
  {
  }

  /** What is posted: the body has eight fields, and the request's own values under the literal keys of these four. */
  lemma CarriesThePosting(sp: Spelling, r: Request)
    ensures var body := Body(sp, r);
            && body.Obj? && |body.fields| == 8
            && Carries(body, Ascii("kind"), Str(KindText(r.kind)))
            && Carries(body, Ascii("amountMinor"), Num(sp.amount(r.amount)))
            && Carries(body, Ascii("currency"), Str(sp.currency(r.currency)))
            && Carries(body, Ascii("description"), OrUndefined(r.description))
  {
    Slots(sp, r);
    var fs := BodyFields(sp, r);
    assert fs[0].key == KIND_KEY && fs[4].key == AMOUNT_KEY && fs[5].key == CURRENCY_KEY && fs[7].key == DESCRIPTION_KEY;
  }

  /** And what it is about, under the keys of the other four. */
  lemma CarriesTheIds(sp: Spelling, r: Request)
    ensures var body := Body(sp, r);
            && Carries(body, Ascii("sourceWalletId"), OrUndefined(Spelled(sp, r.source)))
            && Carries(body, Ascii("targetWalletId"), OrUndefined(Spelled(sp, r.target)))
            && Carries(body, Ascii("originalTransactionId"), OrUndefined(Spelled(sp, r.original)))
            && Carries(body, Ascii("categoryId"), OrUndefined(Spelled(sp, r.category)))
  {
    Slots(sp, r);
    var fs := BodyFields(sp, r);
    assert fs[1].key == SOURCE_KEY && fs[2].key == TARGET_KEY && fs[3].key == ORIGINAL_KEY && fs[6].key == CATEGORY_KEY;
  }

  // ---------------------------------------------------------------- slots

  /** The eight keys are told apart by their lengths and first letters; none is `__proto__`. */
  function KeyMark(i: nat): (nat, CodeUnit)
    requires i < 8
  {
    if i == 0 then (4, 0x6B) else if i == 1 then (14, 0x73) else if i == 2 then (14, 0x74) else if i == 3 then (21, 0x6F)
    else if i == 4 then (11, 0x61) else if i == 5 then (8, 0x63) else if i == 6 then (10, 0x63) else (11, 0x64)
  }

  predicate Scalar(v: Value) {
    v.Undefined? || v.Str? || v.Num?
  }

  predicate IsBody(fs: seq<Entry<Value>>) {
    |fs| == 8 && forall i :: 0 <= i < 8 ==> Slot(fs[i], i)
  }

  predicate Slot(f: Entry<Value>, i: nat)
    requires i < 8
  {
    |f.key| == KeyMark(i).0 && f.key[0] == KeyMark(i).1 && Scalar(f.value)
  }

  lemma BodyIsBody(sp: Spelling, r: Request)
    ensures IsBody(BodyFields(sp, r))
  {
    var fs := BodyFields(sp, r);
    assert |fs[0].key| == 4 && |fs[1].key| == 14 && |fs[2].key| == 14 && |fs[3].key| == 21;
    assert |fs[4].key| == 11 && |fs[5].key| == 8 && |fs[6].key| == 10 && |fs[7].key| == 11;
  }

  lemma SameKeySameSlot(fs: seq<Entry<Value>>, gs: seq<Entry<Value>>, i: nat, j: nat)
    requires IsBody(fs) && IsBody(gs) && i < 8 && j < 8 && fs[i].key == gs[j].key
    ensures i == j
  {
    assert Slot(fs[i], i) && Slot(gs[j], j);
    assert KeyMark(i) == KeyMark(j);
  }

  lemma BodyIsValue(sp: Spelling, r: Request)
    requires Faithful(sp)
    ensures IsValue(Body(sp, r))
  {
    var fs := BodyFields(sp, r);
    BodyIsBody(sp, r);
    forall i, j | 0 <= i < j < 8 ensures fs[i].key != fs[j].key {
      if fs[i].key == fs[j].key {
        SameKeySameSlot(fs, fs, i, j);
      }
    }
    assert IsValue(fs[4].value);
  }

  /** A slot that is not `undefined` is in the stripped object as it is. */
  lemma SlotIsKept(fs: seq<Entry<Value>>, i: nat)
    requires IsBody(fs) && i < 8 && !fs[i].value.Undefined?
    ensures fs[i] in StripFields(fs)
  {
    assert Slot(fs[i], i) && |PROTO| == 9;
    StripFieldsMembers(fs, fs[i]);
  }

  /** An entry of the stripped object is one of the slots. */
  lemma KeptIsSlot(gs: seq<Entry<Value>>, g: Entry<Value>) returns (j: nat)
    requires IsBody(gs) && g in StripFields(gs)
    ensures j < 8 && gs[j] == g
  {
    StripFieldsMembers(gs, g);
    var f :| f in gs && Kept(f) && g == Entry(f.key, Strip(f.value));
    j :| 0 <= j < 8 && gs[j] == f;
    assert Slot(gs[j], j);
  }

  lemma KeptSlot(fs: seq<Entry<Value>>, gs: seq<Entry<Value>>, i: nat)
    requires IsBody(fs) && IsBody(gs) && i < 8 && !fs[i].value.Undefined?
    requires forall k :: 0 <= k < |StripFields(fs)| ==> HasTwin(StripFields(fs)[k], StripFields(gs))
    ensures fs[i].value == gs[i].value
  {
    SlotIsKept(fs, i);
    var k :| 0 <= k < |StripFields(fs)| && StripFields(fs)[k] == fs[i];
    assert HasTwin(StripFields(fs)[k], StripFields(gs));
    var m :| 0 <= m < |StripFields(gs)| && StripFields(gs)[m].key == fs[i].key
        && SameJson(fs[i].value, StripFields(gs)[m].value);
    var j := KeptIsSlot(gs, StripFields(gs)[m]);
    SameKeySameSlot(fs, gs, i, j);
    assert Slot(fs[i], i);
  }

  lemma MirroredTwins(v: Value, w: Value)
    requires v.Obj? && w.Obj? && SameJson(v, w) && IsValue(v) && IsValue(w)
    ensures SameJson(w, v)
  {
    SameCanonEqual(SortOrder, v, w);
    CanonEqualSame(SortOrder, w, v);
  }

  /** Bodies with one stripped reading agree slot by slot. */
  lemma SlotsAgree(fs: seq<Entry<Value>>, gs: seq<Entry<Value>>, i: nat)
    requires IsBody(fs) && IsBody(gs) && i < 8 && IsValue(Obj(fs)) && IsValue(Obj(gs))
    requires SameJson(Strip(Obj(fs)), Strip(Obj(gs)))
    ensures fs[i].value == gs[i].value
  {
    if !fs[i].value.Undefined? {
      KeptSlot(fs, gs, i);
    } else if !gs[i].value.Undefined? {
      StripIsValue(Obj(fs));
      StripIsValue(Obj(gs));
      MirroredTwins(Strip(Obj(fs)), Strip(Obj(gs)));
      KeptSlot(gs, fs, i);
    }
  }

  lemma KindTextInjective(a: Kind, b: Kind)
    requires KindText(a) == KindText(b)
    ensures a == b
  {
    assert |KindText(Transfer)| == 8 && |KindText(Deposit)| == 7 && |KindText(Withdrawal)| == 10;
    assert |KindText(Fee)| == 3 && |KindText(Reversal)| == 8 && |KindText(Adjustment)| == 10;
    assert KindText(Transfer)[0] != KindText(Reversal)[0] && KindText(Withdrawal)[0] != KindText(Adjustment)[0];
  }

  /** Two posting requests have one canonical text exactly when they are the same request. */
  lemma OneTextPerRequest(sp: Spelling, r: Request, q: Request)
    requires Faithful(sp)
    ensures Canonicalize(Body(sp, r)) == Canonicalize(Body(sp, q)) <==> r == q
  {
    BodyIsBody(sp, r);
    BodyIsBody(sp, q);
    BodyIsValue(sp, r);
    BodyIsValue(sp, q);
    CanonicalEqualIffSame(Body(sp, r), Body(sp, q));
    if Canonicalize(Body(sp, r)) == Canonicalize(Body(sp, q)) {
      var fs, gs := BodyFields(sp, r), BodyFields(sp, q);
      forall i | 0 <= i < 8 ensures fs[i].value == gs[i].value {
        SlotsAgree(fs, gs, i);
      }
      SameSlotsSameRequest(sp, r, q);
    }
  }

  lemma SameSlotsSameRequest(sp: Spelling, r: Request, q: Request)
    requires Faithful(sp) && forall i :: 0 <= i < 8 ==> BodyFields(sp, r)[i].value == BodyFields(sp, q)[i].value
    ensures r == q
  {
    var fs, gs := BodyFields(sp, r), BodyFields(sp, q);
    assert fs[0].value == gs[0].value && fs[1].value == gs[1].value && fs[2].value == gs[2].value && fs[3].value == gs[3].value;
    assert fs[4].value == gs[4].value && fs[5].value == gs[5].value && fs[6].value == gs[6].value && fs[7].value == gs[7].value;
    KindTextInjective(r.kind, q.kind);
  }
}
