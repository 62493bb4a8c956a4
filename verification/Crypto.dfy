/** internal/store/crypto.go: what a stored envelope binds. AES-GCM is ideal here: a ciphertext opens
    exactly with the key and the metadata it was sealed with. */
module Crypto {
  import opened Text
  import opened Contract
  import opened Decimal

  type Key = nat // 32 bytes; 0 is the all-zero key

  const FORMAT_VERSION := "are-encrypted-record/2.0"

  datatype Meta = Meta(
    formatVersion: string,
    recordKind: string,
    opaqueID: string,
    revision: int,
    createdAt: Time,
    expiresAt: Time,
    publicKey: string,
    protected: bool)

  datatype Ciphertext<T> = Ciphertext(key: Key, bound: Meta, plain: T)
  datatype Envelope<T> = Envelope(meta: Meta, sealed: Ciphertext<T>)

  /** sealRecord. */
  function SealRecord<T>(kind: string, opaqueID: string, revision: int, createdAt: Time, expiresAt: Time,
                         publicKey: string, protected: bool, key: Key, value: T): Option<Envelope<T>> {
    if kind == "" || opaqueID == "" || revision < 0 || createdAt == ZERO_TIME || expiresAt == ZERO_TIME then None
    else
      var meta := Meta(FORMAT_VERSION, kind, opaqueID, revision, createdAt, expiresAt, publicKey, protected);
      Some(Envelope(meta, Ciphertext(key, meta, value)))
  }

  /** openRecord. */
  function OpenRecord<T>(envelope: Envelope<T>, key: Key): Option<T> {
    var meta := envelope.meta;
    if meta.formatVersion != FORMAT_VERSION || meta.recordKind == "" || meta.opaqueID == ""
       || meta.revision < 0 then None
    else if envelope.sealed.key == key && envelope.sealed.bound == meta then Some(envelope.sealed.plain)
    else None
  }

  /** A file opens under a key if and only if sealing its content under that key, with the metadata it shows,
      gives this very file. */
  lemma OpensWhatWasSealed<T>(e: Envelope<T>, key: Key, value: T)
    requires e.meta.createdAt != ZERO_TIME && e.meta.expiresAt != ZERO_TIME
    ensures OpenRecord(e, key) == Some(value)
            <==> SealRecord(e.meta.recordKind, e.meta.opaqueID, e.meta.revision, e.meta.createdAt, e.meta.expiresAt,
                            e.meta.publicKey, e.meta.protected, key, value) == Some(e)
    ensures OpenRecord(e, key) == Some(value) ==> forall other :: other != key ==> OpenRecord(e, other).None?
    ensures OpenRecord(e, key) == Some(value) ==>
              forall meta :: meta != e.meta ==> OpenRecord(e.(meta := meta), key).None?
  {
  }

  // ---- Associated data ----

  const NUL: char := '\0'

  function Flag(b: bool): string { if b then "true" else "false" }

  /** associatedData: the bound fields, separated by NUL. `timeText` is the time format. */
  function AssociatedData(m: Meta, timeText: Time -> string): string {
    Join(Fields(m, timeText), NUL)
  }

  function Fields(m: Meta, timeText: Time -> string): seq<string> {
    [m.formatVersion, m.recordKind, m.opaqueID, Itoa(m.revision), timeText(m.createdAt), timeText(m.expiresAt),
     m.publicKey, Flag(m.protected)]
  }

  ghost predicate TextFree(m: Meta) {
    NUL !in m.formatVersion && NUL !in m.recordKind && NUL !in m.opaqueID && NUL !in m.publicKey
  }

  /** A time format that tells times apart and contains no NUL, as RFC 3339 with nanoseconds does in UTC. */
  ghost predicate FaithfulTimes(timeText: Time -> string) {
    (forall t :: NUL !in timeText(t)) && (forall t, u :: timeText(t) == timeText(u) ==> t == u)
  }

  /** Equal associated data means equal metadata: nothing bound can be exchanged unnoticed. */
  lemma AssociatedDataInjective(a: Meta, b: Meta, timeText: Time -> string)
    requires FaithfulTimes(timeText) && TextFree(a) && TextFree(b)
    requires AssociatedData(a, timeText) == AssociatedData(b, timeText)
    ensures a == b
  {
    ItoaLetters(a.revision);
    ItoaLetters(b.revision);
    var x, y := Fields(a, timeText), Fields(b, timeText);
    SplitJoin(x, NUL);
    SplitJoin(y, NUL);
    assert x[0] == y[0] && x[1] == y[1] && x[2] == y[2] && x[3] == y[3];
    assert x[4] == y[4] && x[5] == y[5] && x[6] == y[6] && x[7] == y[7];
    ItoaInjective(a.revision, b.revision);
  }

  /** With a NUL inside a text field the boundaries shift, and two different envelopes bind alike. */
  lemma NulShiftsBoundaries(timeText: Time -> string)
    ensures exists a: Meta, b: Meta :: a != b && AssociatedData(a, timeText) == AssociatedData(b, timeText)
  {
    var a := Meta("v", "k" + [NUL] + "x", "y", 0, 1, 2, "p", false);
    var b := Meta("v", "k", "x" + [NUL] + "y", 0, 1, 2, "p", false);
    assert |a.recordKind| == 3 && |b.recordKind| == 1;
    var first, rest := ["v"], [Itoa(0), timeText(1), timeText(2), "p", Flag(false)];
    assert Fields(a, timeText) == first + ([a.recordKind, a.opaqueID] + rest);
    assert Fields(b, timeText) == first + ([b.recordKind, b.opaqueID] + rest);
    ShiftedPair("k", "x", "y");
    SurroundedJoin(first, [a.recordKind, a.opaqueID], [b.recordKind, b.opaqueID], rest);
    assert a != b && AssociatedData(a, timeText) == AssociatedData(b, timeText);
  }

  lemma ShiftedPair(k: string, x: string, y: string)
    ensures Join([k + [NUL] + x, y], NUL) == Join([k, x + [NUL] + y], NUL)
  {
    PairJoin(k + [NUL] + x, y);
    PairJoin(k, x + [NUL] + y);
  }

  lemma PairJoin(a: string, b: string)
    ensures Join([a, b], NUL) == a + [NUL] + b
  {
    assert [a, b][1..] == [b];
  }

  lemma SurroundedJoin(first: seq<string>, p: seq<string>, q: seq<string>, rest: seq<string>)
    requires first != [] && rest != [] && p != [] && q != [] && Join(p, NUL) == Join(q, NUL)
    ensures Join(first + (p + rest), NUL) == Join(first + (q + rest), NUL)
  {
    JoinConcat(p, rest, NUL);
    JoinConcat(q, rest, NUL);
    JoinConcat(first, p + rest, NUL);
    JoinConcat(first, q + rest, NUL);
  }
}
