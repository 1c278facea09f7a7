// Permission translation. On the volume a set bit denies; ADF_PERM_* and the
// mode bits grant.
module Permissions {
  import opened Volume

  // The three rights that are translated (ADF_PERM_READ / WRITE / EXECUTE).
  datatype Rwx = Rwx(r: bool, w: bool, x: bool)

  const NO_RIGHTS := Rwx(false, false, false)

  // Each mask is one bit, and they differ.
  predicate MasksApart(m: Masks) {
    m.r != m.w && m.r != m.e && m.w != m.e
  }

  // adfimage_getperm
  function GetPerm(m: Masks, access: Word): Rwx {
    Rwx(m.r !in access, m.w !in access, m.e !in access)
  }

  // The bits of the access word that belong to none of the three rights.
  function Others(m: Masks, access: Word): Word {
    access - {m.r, m.w, m.e}
  }

  // C's logical negation: 1 for zero, 0 for anything else.
  function LogicalNot(w: Word): Word {
    if w == {} then {0} else {}
  }

  // One statement pair of adfimage_setperm, as written ...
  function SetBit(access: Word, mask: Word, grant: bool): Word {
    if grant then access * LogicalNot(mask) else access + mask
  }

  function SetPerm(m: Masks, access: Word, p: Rwx): Word {
    SetBit(SetBit(SetBit(access, {m.r}, p.r), {m.w}, p.w), {m.e}, p.x)
  }

  // ... and as meant, with the bitwise complement.
  function SetBitMeant(access: Word, mask: Word, grant: bool): Word {
    if grant then access - mask else access + mask
  }

  function SetPermMeant(m: Masks, access: Word, p: Rwx): Word {
    SetBitMeant(SetBitMeant(SetBitMeant(access, {m.r}, p.r), {m.w}, p.w), {m.e}, p.x)
  }

  // The smallest set with the given rights that contains R with W and W with X.
  function DownClosure(p: Rwx): Rwx {
    Rwx(p.r || p.w || p.x, p.w || p.x, p.x)
  }

  // As meant: the rights set are the rights read back and no other bit moves.
  lemma MeantRoundTrip(m: Masks, access: Word, p: Rwx)
    requires MasksApart(m)
    ensures GetPerm(m, SetPermMeant(m, access, p)) == p
    ensures Others(m, SetPermMeant(m, access, p)) == Others(m, access)
  {
  }

  // As written: every grant wipes the whole word, so only the denials after
  // the last grant remain, and the rights read back are the downward closure
  // of the rights set; the bits that are not translated survive only when
  // nothing is granted.
  lemma WrittenReadback(m: Masks, access: Word, p: Rwx)
    requires MasksApart(m)
    ensures GetPerm(m, SetPerm(m, access, p)) == DownClosure(p)
    ensures Others(m, SetPerm(m, access, p)) == if p == NO_RIGHTS then Others(m, access) else {}
  {
    assert {m.r} != {} && {m.w} != {} && {m.e} != {};
  }

  // So the round trip and the preservation hold exactly in these cases.
  lemma WrittenRoundTripExactly(m: Masks, access: Word, p: Rwx)
    requires MasksApart(m)
    ensures GetPerm(m, SetPerm(m, access, p)) == p <==> (p.x ==> p.w) && (p.w ==> p.r)
    ensures Others(m, SetPerm(m, access, p)) == Others(m, access) <==> p == NO_RIGHTS || Others(m, access) == {}
  {
    WrittenReadback(m, access, p);
  }
}
