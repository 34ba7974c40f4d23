/** The key slots the sample provider installs, with every build option switched on. */
module SlotTable {
  import opened Bytes
  import opened AccessToken
  import opened HwkeySpec
  import opened HwkeyRuns

  /** The uuids of the applications the table mentions. */
  datatype Apps = Apps(storage: Uuid, keymint: Uuid, apploader: Uuid, unittest: Uuid, hwaes: Uuid, hwaesUnittest: Uuid)

  function Ascii(text: string): (s: seq<byte>)
    ensures |s| == |text|
  {
    seq(|text|, i requires 0 <= i < |text| => LowByte(text[i] as nat))
  }

  /** The slots of the storage service, keymint and the app loader. */
  function ProductSlots(apps: Apps): seq<Slot> {
    [
      Slot(Ascii("com.android.trusty.storage_auth.rpmb"), apps.storage, Direct),
      Slot(Ascii("com.android.trusty.keymint.kak"), apps.keymint, Direct),
      Slot(Ascii("com.android.trusty.apploader.sign.key.0"), apps.apploader, Direct),
      Slot(Ascii("com.android.trusty.apploader.sign.key.1"), apps.apploader, Direct),
      Slot(Ascii("com.android.trusty.apploader.encrypt.key.0"), apps.apploader, KeyHandle([apps.hwaes])),
      Slot(Ascii("com.android.trusty.apploader.encrypt.key.1"), apps.apploader, KeyHandle([apps.hwaes]))
    ]
  }

  /** The slots that exist for the unit tests only. */
  function UnittestSlots(apps: Apps): seq<Slot> {
    [
      Slot(Ascii("com.android.trusty.hwcrypto.unittest.key32"), apps.unittest, Direct),
      Slot(Ascii("com.android.trusty.hwcrypto.unittest.derived_key32"), apps.unittest, Direct),
      Slot(Ascii("com.android.trusty.hwcrypto.unittest.opaque_handle"), apps.unittest, KeyHandle([apps.unittest])),
      Slot(Ascii("com.android.trusty.hwcrypto.unittest.opaque_handle2"), apps.unittest, KeyHandle([apps.unittest])),
      Slot(Ascii("com.android.trusty.hwcrypto.unittest.opaque_handle_noaccess"), apps.unittest, KeyHandle([])),
      Slot(Ascii("com.android.trusty.hwcrypto.unittest.opaque_derived"), apps.unittest, KeyHandle([apps.unittest])),
      Slot(Ascii("com.android.trusty.hwaes.unittest.opaque_handle"), apps.hwaesUnittest, KeyHandle([apps.hwaes]))
    ]
  }

  function ShippedSlots(apps: Apps): seq<Slot> {
    ProductSlots(apps) + UnittestSlots(apps)
  }

  /** None of the ids is as long as a token. */
  predicate NoneTokenLong(slots: seq<Slot>) {
    forall i :: 0 <= i < |slots| ==> |slots[i].keyId| != HANDLE_SIZE - 1
  }

  lemma ProductIdsNotTokenLong(apps: Apps)
    ensures NoneTokenLong(ProductSlots(apps))
  {
  }

  lemma UnittestIdsNotTokenLong(apps: Apps)
    ensures NoneTokenLong(UnittestSlots(apps))
  {
  }

  /** No key id in the table is as long as a token, so a token is never taken for a slot's name. */
  lemma TokenNamesNoSlot(apps: Apps, token: seq<byte>)
    requires ValidToken(token)
    ensures NoSlotNamed(ShippedSlots(apps), CString(token))
  {
    TokenAsCString(token);
    ProductIdsNotTokenLong(apps);
    UnittestIdsNotTokenLong(apps);
    NotNamed(ProductSlots(apps), UnittestSlots(apps), CString(token));
  }

  lemma NotNamed(a: seq<Slot>, b: seq<Slot>, id: seq<byte>)
    requires NoneTokenLong(a) && NoneTokenLong(b) && |id| == HANDLE_SIZE - 1
    ensures NoSlotNamed(a + b, id)
  {
  }

  /** A token for a slot that lists nobody is refused whoever presents it, for as long as it is live. */
  lemma NoAccessSlotNeverOpens<S>(c: Config, st: State<S>, e: Entry<S>, uuid: Uuid, keys: nat -> Reply)
    requires Inv(c, st) && e in st.handles && HeldOnlyBy(st, e.token, e)
    requires c.slots[e.slot].handler == KeyHandle([])
    ensures Redeem(c, st, uuid, CString(e.token), keys) == Reply(NotFound, [])
  {
    RedeemSoleHolder(c, st, uuid, e, keys);
  }
}
