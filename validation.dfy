/** validateInput: the short-circuit checks a form submission passes before addData. */
module Validation {
  import opened Text
  import opened Records

  /** The pattern /^\d{16}$/: exactly sixteen ASCII digits and nothing else. */
  predicate IsNikFormat(nik: string)
    ensures IsNikFormat(nik) ==> forall i :: 0 <= i < |nik| ==> !IsWhitespace(nik[i])
  {
    |nik| == 16 && AllDigits(nik)
  }

  /** Why a submission was turned down, one per check, in the order they run. */
  datatype Rejection = EmptyName | ShortName | MalformedNik | DuplicateNik

  datatype Verdict = Accepted | Rejected(reason: Rejection)

  /** The notice each rejection raises: a warning for a duplicate NIK, danger otherwise. */
  function RejectionNotice(reason: Rejection): (k: NoticeKind)
    ensures k == Warning <==> reason == DuplicateNik
    ensures k == Danger <==> reason != DuplicateNik
  {
    if reason == DuplicateNik then Warning else Danger
  }

  /** The first failing check decides; a submission is accepted only when all pass.
      Each outcome is stated as the exact condition under which it is returned. */
  function ValidateInput(nama: string, nik: string, data: seq<Entry>): (v: Verdict)
    ensures v == Rejected(EmptyName) <==> IsBlank(nama)
    ensures v == Rejected(ShortName) <==> !IsBlank(nama) && |Trim(nama)| < 3
    ensures v == Rejected(MalformedNik) <==> |Trim(nama)| >= 3 && !IsNikFormat(nik)
    ensures v == Rejected(DuplicateNik) <==>
              |Trim(nama)| >= 3 && IsNikFormat(nik) && NikTaken(nik, data)
    ensures v == Accepted <==>
              |Trim(nama)| >= 3 && IsNikFormat(nik) && !NikTaken(nik, data)
  {
    if Trim(nama) == [] then Rejected(EmptyName)
    else if |Trim(nama)| < 3 then Rejected(ShortName)
    else if !IsNikFormat(nik) then Rejected(MalformedNik)
    else if NikTaken(nik, data) then Rejected(DuplicateNik)
    else Accepted
  }

  /** A NIK that passed the format check has no whitespace, so trimming keeps it as is. */
  lemma NikFormatIsTrimmed(nik: string)
    requires IsNikFormat(nik)
    ensures Trim(nik) == nik
  {
    assert !IsWhitespace(nik[0]) && !IsWhitespace(nik[15]);
    TrimUnchanged(nik);
  }

  /** The entry addData stores after an accepted submission has a name of at least three
      characters, a well-formed NIK and a NIK no other entry holds. */
  lemma AcceptedEntryWellFormed(data: seq<Entry>, now: int, nama: string, nik: string,
                                alamat: string, nominal: string, createdAt: string)
    requires ValidateInput(nama, nik, data) == Accepted
    ensures var e := NewEntry(now, nama, nik, alamat, nominal, createdAt);
      |e.nama| >= 3 && IsNikFormat(e.nik) && e.nik == nik && !NikTaken(e.nik, data)
  {
    NikFormatIsTrimmed(nik);
  }

  /** Validating before adding keeps the NIKs of the registry pairwise distinct. */
  lemma AcceptedAddKeepsNiksUnique(data: seq<Entry>, now: int, nama: string, nik: string,
                                   alamat: string, nominal: string, createdAt: string)
    requires UniqueNiks(data)
    requires ValidateInput(nama, nik, data) == Accepted
    ensures UniqueNiks([NewEntry(now, nama, nik, alamat, nominal, createdAt)] + data)
  {
    NikFormatIsTrimmed(nik);
    AddFreshNikKeepsUnique(data, NewEntry(now, nama, nik, alamat, nominal, createdAt));
  }

  /** The notice a rejected submission raises, read off the submission itself: a warning
      exactly when the name and NIK format pass and the NIK is already registered; danger
      when the name is blank or too short, or the NIK is not sixteen digits. */
  lemma RejectionNoticeOfInput(nama: string, nik: string, data: seq<Entry>)
    ensures ValidateInput(nama, nik, data).Rejected? ==>
              (RejectionNotice(ValidateInput(nama, nik, data).reason) == Warning <==>
                 |Trim(nama)| >= 3 && IsNikFormat(nik) && NikTaken(nik, data))
    ensures ValidateInput(nama, nik, data).Rejected? ==>
              (RejectionNotice(ValidateInput(nama, nik, data).reason) == Danger <==>
                 |Trim(nama)| < 3 || !IsNikFormat(nik))
  {
  }

  /** The name-length boundary: two visible characters are too few, three are enough. */
  lemma NameLengthBoundary(nama: string, nik: string, data: seq<Entry>)
    requires nama != [] && !IsWhitespace(nama[0]) && !IsWhitespace(nama[|nama| - 1])
    requires IsNikFormat(nik) && !NikTaken(nik, data)
    ensures |nama| == 2 ==> ValidateInput(nama, nik, data) == Rejected(ShortName)
    ensures |nama| == 3 ==> ValidateInput(nama, nik, data) == Accepted
  {
    TrimUnchanged(nama);
  }

  /** What addData's entry keeps from a submission validateInput accepted: the NIK as
      submitted, and distinct NIKs when they were distinct before. */
  lemma AcceptedAdd(data: seq<Entry>, now: int, nama: string, nik: string,
                    alamat: string, nominal: string, createdAt: string)
    ensures ValidateInput(nama, nik, data) == Accepted ==>
              NewEntry(now, nama, nik, alamat, nominal, createdAt).nik == nik
    ensures ValidateInput(nama, nik, data) == Accepted && UniqueNiks(data) ==>
              UniqueNiks([NewEntry(now, nama, nik, alamat, nominal, createdAt)] + data)
  {
    if ValidateInput(nama, nik, data) == Accepted {
      NikFormatIsTrimmed(nik);
      if UniqueNiks(data) {
        AcceptedAddKeepsNiksUnique(data, now, nama, nik, alamat, nominal, createdAt);
      }
    }
  }
}
