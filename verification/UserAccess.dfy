/** The user-mapping check of src/arch/user_access.rs. */
module UserAccess {
  import opened Machine

  const PAGE_SIZE := 4096

  /** Permission bits as in src/memory/paging.rs: read, write, execute. */
  type PagePermissions = bv8

  predicate Contains(have: PagePermissions, want: PagePermissions) {
    have & want == want
  }

  predicate Bit(p: PagePermissions, n: nat)
    requires n < 8
  {
    (p >> n) & 1 == 1
  }

  /** Every bit that is wanted is there. */
  ghost predicate Covers(have: PagePermissions, want: PagePermissions) {
    forall n: nat :: n < 8 && Bit(want, n) ==> Bit(have, n)
  }

  lemma ContainsExact(have: PagePermissions, want: PagePermissions)
    ensures Contains(have, want) <==> Covers(have, want)
  {
    if Contains(have, want) {
      forall n: nat | n < 8 && Bit(want, n)
        ensures Bit(have, n)
      {
        assert n == 0 || n == 1 || n == 2 || n == 3 || n == 4 || n == 5 || n == 6 || n == 7;
      }
    }
    if Covers(have, want) {
      assert (Bit(want, 0) ==> Bit(have, 0)) && (Bit(want, 1) ==> Bit(have, 1));
      assert (Bit(want, 2) ==> Bit(have, 2)) && (Bit(want, 3) ==> Bit(have, 3));
      assert (Bit(want, 4) ==> Bit(have, 4)) && (Bit(want, 5) ==> Bit(have, 5));
      assert (Bit(want, 6) ==> Bit(have, 6)) && (Bit(want, 7) ==> Bit(have, 7));
    }
  }

  /** What a process's address space answers for an address: permissions, or no mapping. */
  type Translation = u64 -> Option<PagePermissions>

  /** The byte is mapped, with every permission wanted. */
  ghost predicate Allowed(translate: Translation, a: u64, want: PagePermissions) {
    translate(a).Some? && Covers(translate(a).value, want)
  }

  ghost predicate Granted(translate: Translation, from: nat, to: nat, want: PagePermissions) {
    forall a: u64 :: from <= a < to ==> Allowed(translate, a, want)
  }

  /** What is wrong with a byte that is not allowed. */
  ghost predicate Refused(translate: Translation, a: u64, want: PagePermissions, e: Error) {
    !Allowed(translate, a, want) && e == if translate(a).None? then InvalidArgument else PermissionDenied
  }

  /** The lowest byte of the range that is not allowed, and what is wrong with it. */
  ghost predicate FirstRefused(translate: Translation, from: nat, to: nat, want: PagePermissions, a: u64, e: Error) {
    from <= a < to && Refused(translate, a, want, e) && Granted(translate, from, a, want)
  }

  /** The answer of a walk over every byte of a range: success if every one is allowed, and
      otherwise the error of the lowest byte that is not. */
  ghost predicate ByteWalk(translate: Translation, from: nat, to: nat, want: PagePermissions, r: Result<()>) {
    match r
    case Ok(_) => Granted(translate, from, to, want)
    case Err(e) => exists a: u64 :: FirstRefused(translate, from, to, want, a, e)
  }

  /** Mappings are whole pages: every byte of a page is answered like the others. */
  ghost predicate PageUniform(translate: Translation) {
    forall a: u64, b: u64 :: a / PAGE_SIZE == b / PAGE_SIZE ==> translate(a) == translate(b)
  }

  /** The start of the next page, or `end` if that comes first or there is no next page. */
  function NextAddress(address: u64, end: u64): (r: u64)
    requires address < end
    ensures address < r <= end
    ensures r == end || r % PAGE_SIZE == 0
    ensures (r - 1) / PAGE_SIZE == address / PAGE_SIZE
  {
    var lastOfPage := address - address % PAGE_SIZE + (PAGE_SIZE - 1);
    var nextPage := if lastOfPage + 1 < ADDRESS_LIMIT then lastOfPage + 1 else end;
    Min(nextPage, end)
  }

  /** What the code makes of one probe. */
  function Probe(translation: Option<PagePermissions>, want: PagePermissions): Option<Error> {
    match translation
    case None => Some(InvalidArgument)
    case Some(have) => if Contains(have, want) then None else Some(PermissionDenied)
  }

  lemma ProbeExact(translate: Translation, a: u64, want: PagePermissions)
    ensures Probe(translate(a), want) == None <==> Allowed(translate, a, want)
    ensures forall e :: Probe(translate(a), want) == Some(e) <==> Refused(translate, a, want, e)
  {
    hide Contains, Covers;
    if translate(a).Some? {
      ContainsExact(translate(a).value, want);
    }
  }

  /** One probe per page: the error of the first probe that is refused. */
  function PageWalk(translate: Translation, address: u64, end: u64, want: PagePermissions): (r: Result<()>)
    requires address <= end
    decreases end - address
  {
    if address == end then Ok(())
    else
      match Probe(translate(address), want)
      case Some(e) => Err(e)
      case None => PageWalk(translate, NextAddress(address, end), end, want)
  }

  /** Inside a page nothing that is allowed at an address is refused further up. */
  ghost predicate PageRises(translate: Translation) {
    forall a: u64, b: u64 :: a < b < MAX_U64 && a / PAGE_SIZE == b / PAGE_SIZE ==> Allows(translate, a, b)
  }

  ghost predicate Allows(translate: Translation, a: u64, b: u64) {
    translate(a).Some? ==> translate(b).Some? && Covers(translate(b).value, translate(a).value)
  }

  lemma UniformRises(translate: Translation)
    requires PageUniform(translate)
    ensures PageRises(translate)
  {
    forall a: u64, b: u64 | a < b < MAX_U64 && a / PAGE_SIZE == b / PAGE_SIZE
      ensures Allows(translate, a, b)
    {
      assert translate(a) == translate(b);
    }
  }

  /** One probe speaks for the rest of its page. */
  lemma ProbeSpeaks(translate: Translation, address: u64, end: u64, want: PagePermissions)
    requires address < end && PageRises(translate) && Allowed(translate, address, want)
    ensures Granted(translate, address, NextAddress(address, end), want)
  {
    hide Bit;
    forall a: u64 | address <= a < NextAddress(address, end)
      ensures Allowed(translate, a, want)
    {
      assert a / PAGE_SIZE == address / PAGE_SIZE;
      if address < a {
        assert Allows(translate, address, a);
      }
    }
  }

  lemma {:induction false} WalkSpeaks(translate: Translation, start: u64, end: u64, want: PagePermissions)
    requires start <= end && PageRises(translate)
    ensures ByteWalk(translate, start, end, want, PageWalk(translate, start, end, want))
    decreases end - start
  {
    hide PageRises, Allowed, Refused, Probe;
    ProbeExact(translate, start, want);
    var e := Probe(translate(start), want);
    if start == end {
      assert Granted(translate, start, end, want);
    } else if e.Some? {
      assert FirstRefused(translate, start, end, want, start, e.value);
    } else {
      var next := NextAddress(start, end);
      ProbeSpeaks(translate, start, end, want);
      WalkSpeaks(translate, next, end, want);
      var r := PageWalk(translate, next, end, want);
      if r.Err? {
        var a: u64 :| FirstRefused(translate, next, end, want, a, r.error);
        assert FirstRefused(translate, start, end, want, a, r.error);
      }
    }
  }

  /** The page walk answers every range as a walk over every byte would if and only if inside a
      page nothing allowed is refused further up. */
  lemma WalkExact(translate: Translation)
    ensures PageRises(translate)
       <==> forall start: u64, end: u64, want: PagePermissions :: start <= end ==>
              ByteWalk(translate, start, end, want, PageWalk(translate, start, end, want))
  {
    hide ByteWalk, PageWalk;
    if PageRises(translate) {
      forall start: u64, end: u64, want: PagePermissions | start <= end
        ensures ByteWalk(translate, start, end, want, PageWalk(translate, start, end, want))
      {
        WalkSpeaks(translate, start, end, want);
      }
    } else {
      var a: u64, b: u64 :| a < b < MAX_U64 && a / PAGE_SIZE == b / PAGE_SIZE && !Allows(translate, a, b);
      PassedOver(translate, a, b);
    }
  }

  /** A byte that refuses what an earlier byte of its page allows is passed over: the walk
      answers Ok, and a walk over every byte would not. */
  lemma PassedOver(translate: Translation, start: u64, hole: u64)
    requires start < hole < MAX_U64 && hole / PAGE_SIZE == start / PAGE_SIZE && !Allows(translate, start, hole)
    ensures PageWalk(translate, start, hole + 1, translate(start).value) == Ok(())
    ensures !ByteWalk(translate, start, hole + 1, translate(start).value, Ok(()))
  {
    var want := translate(start).value;
    ProbeExact(translate, start, want);
    assert NextAddress(start, hole + 1) == hole + 1;
    assert !Allowed(translate, hole, want);
  }

  /** For every address space that maps whole pages the answer is Ok exactly when every byte of
      the range is mapped with every permission wanted, and otherwise it is the error of the
      lowest byte that is not.  A range that runs off the end of the addresses is refused before
      any of it is looked at, and whatever the mappings, an error is that of a byte of the range. */
  method ValidateUserMapping(translate: Translation, start: u64, length: u64, want: PagePermissions)
    returns (r: Result<()>)
    ensures length == 0 ==> r == Ok(())
    ensures length > 0 && start + length >= ADDRESS_LIMIT ==> r == Err(InvalidArgument)
    ensures start + length < ADDRESS_LIMIT ==> r == PageWalk(translate, start, start + length, want)
    ensures start + length < ADDRESS_LIMIT && PageUniform(translate) ==>
              BytesSay(translate, start, start + length, want, r)
    ensures start + length < ADDRESS_LIMIT && r.Err? ==>
              exists a: u64 :: start <= a < start + length && Refused(translate, a, want, r.error)
  {
    hide BytesSay, PageUniform, Refused;
    if length == 0 {
      r := Ok(());
      Answered(translate, start, start, want);
      return;
    }
    if start + length >= ADDRESS_LIMIT {
      return Err(InvalidArgument);
    }
    var end: u64 := start + length;
    Answered(translate, start, end, want);
    var address := start;
    while address < end
      invariant start <= address <= end
      invariant PageWalk(translate, start, end, want) == PageWalk(translate, address, end, want)
    {
      var translation := translate(address);
      if translation.None? {
        return Err(InvalidArgument);
      }
      if !Contains(translation.value, want) {
        return Err(PermissionDenied);
      }
      address := NextAddress(address, end);
    }
    return Ok(());
  }

  /** Each answer, exactly when the bytes of the range call for it. */
  ghost predicate BytesSay(translate: Translation, from: nat, to: nat, want: PagePermissions, r: Result<()>) {
    && (r == Ok(()) <==> Granted(translate, from, to, want))
    && (r == Err(PermissionDenied) <==>
          exists a: u64 :: FirstRefused(translate, from, to, want, a, PermissionDenied))
    && (r == Err(InvalidArgument) <==>
          exists a: u64 :: FirstRefused(translate, from, to, want, a, InvalidArgument))
  }

  /** What the page walk answers. */
  lemma Answered(translate: Translation, start: u64, end: u64, want: PagePermissions)
    requires start <= end
    ensures var r := PageWalk(translate, start, end, want);
            PageUniform(translate) ==> BytesSay(translate, start, end, want, r)
    ensures var r := PageWalk(translate, start, end, want);
            r.Err? ==> exists a: u64 :: start <= a < end && Refused(translate, a, want, r.error)
  {
    hide Granted, FirstRefused, PageUniform, Refused, PageWalk;
    if PageUniform(translate) {
      UniformRises(translate);
      WalkSpeaks(translate, start, end, want);
      OneAnswer(translate, start, end, want, PageWalk(translate, start, end, want));
    }
    ErrorOfAByte(translate, start, end, want);
  }

  lemma OneAnswer(translate: Translation, from: nat, to: nat, want: PagePermissions, r: Result<()>)
    requires ByteWalk(translate, from, to, want, r)
    ensures r == Ok(()) <==> Granted(translate, from, to, want)
    ensures forall e :: r == Err(e) <==> exists a: u64 :: FirstRefused(translate, from, to, want, a, e)
  {
    hide Granted, FirstRefused;
    if Granted(translate, from, to, want) {
      ByteWalkUnique(translate, from, to, want, r, Ok(()));
    }
    forall e, a: u64 | FirstRefused(translate, from, to, want, a, e)
      ensures r == Err(e)
    {
      ByteWalkUnique(translate, from, to, want, r, Err(e));
    }
    if r.Ok? {
      assert r.value == ();
    }
  }

  lemma {:induction false} ErrorOfAByte(translate: Translation, start: u64, end: u64, want: PagePermissions)
    requires start <= end
    ensures var r := PageWalk(translate, start, end, want);
            r.Err? ==> exists a: u64 :: start <= a < end && Refused(translate, a, want, r.error)
    decreases end - start
  {
    hide Refused, Probe;
    ProbeExact(translate, start, want);
    if start < end && Probe(translate(start), want) == None {
      ErrorOfAByte(translate, NextAddress(start, end), end, want);
    }
  }

  /** There is one answer: a byte walk cannot both succeed and fail, nor fail in two ways. */
  lemma ByteWalkUnique(translate: Translation, from: nat, to: nat, want: PagePermissions, r: Result<()>, s: Result<()>)
    requires ByteWalk(translate, from, to, want, r) && ByteWalk(translate, from, to, want, s)
    ensures r == s
  {
    hide Allowed;
    if r.Ok? && s.Ok? {
      assert r.value == () == s.value;
    } else if r.Err? && s.Err? {
      var a: u64 :| FirstRefused(translate, from, to, want, a, r.error);
      var b: u64 :| FirstRefused(translate, from, to, want, b, s.error);
      assert a < b ==> Allowed(translate, a, want);
      assert b < a ==> Allowed(translate, b, want);
    }
  }
}
