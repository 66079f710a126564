/** The registry entry and the facts about a list of entries that the registry relies on. */
module Records {
  import opened Wrappers
  import opened Text

  /** One stored entry `{id, nama, nik, alamat, nominal, tanggalInput}`. `nominal` is
      parseInt's result, None standing for NaN. */
  datatype Entry = Entry(id: int, nama: string, nik: string, alamat: string,
                         nominal: Option<int>, tanggalInput: string)

  /** The kinds of on-screen notice the registry raises. */
  datatype NoticeKind = Success | Danger | Warning | Info

  /** The object literal addData builds from raw form fields, the clock reading `now`
      and the locale-formatted creation time `createdAt`. */
  function NewEntry(now: int, nama: string, nik: string, alamat: string, nominal: string,
                    createdAt: string): (r: Entry)
    ensures r.id == now && r.tanggalInput == createdAt
    ensures r.nama == [] <==> IsBlank(nama)
  {
    Entry(now, Trim(nama), Trim(nik), Trim(alamat), ParseInt(nominal), createdAt)
  }

  /** The text fields of a new entry are already in trimmed form. */
  lemma NewEntryTrimmed(now: int, nama: string, nik: string, alamat: string, nominal: string,
                        createdAt: string)
    ensures var e := NewEntry(now, nama, nik, alamat, nominal, createdAt);
      Trim(e.nama) == e.nama && Trim(e.nik) == e.nik && Trim(e.alamat) == e.alamat
  {
    TrimIdempotent(nama);
    TrimIdempotent(nik);
    TrimIdempotent(alamat);
  }

  /** `data.some(item => item.nik === nik)`. */
  predicate NikTaken(nik: string, data: seq<Entry>)
    ensures NikTaken(nik, data) <==> exists i :: 0 <= i < |data| && data[i].nik == nik
  {
    exists e :: e in data && e.nik == nik
  }

  /** No two entries share a NIK. */
  predicate UniqueNiks(data: seq<Entry>) {
    forall i, j :: 0 <= i < j < |data| ==> data[i].nik != data[j].nik
  }

  /** Putting an entry with a fresh NIK in front keeps the NIKs pairwise distinct. */
  lemma AddFreshNikKeepsUnique(data: seq<Entry>, e: Entry)
    requires UniqueNiks(data) && !NikTaken(e.nik, data)
    ensures UniqueNiks([e] + data)
  {
    var s := [e] + data;
    forall i, j | 0 <= i < j < |s|
      ensures s[i].nik != s[j].nik
    {
      if i == 0 {
        assert s[j] == data[j - 1] && s[j] in data;
      } else {
        assert s[i] == data[i - 1] && s[j] == data[j - 1];
      }
    }
  }
}
