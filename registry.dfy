/** The DataManager's record store: the ordered entry list and its persisted copy. */
module Registry {
  import opened Wrappers
  import opened Seqs
  import opened Records
  import opened Validation

  /** What localStorage holds under the key "dataRegistry": nothing, an empty string,
      a JSON array of entries, or text JSON.parse cannot read. */
  datatype Persisted = Missing | EmptyText | Json(entries: seq<Entry>) | Malformed

  datatype LoadError = SyntaxError

  /** loadFromLocalStorage: `stored ? JSON.parse(stored) : []`. A missing or empty item
      gives the empty list; unreadable content throws, there is no recovery. */
  function Load(p: Persisted): (r: Result<seq<Entry>, LoadError>)
    ensures r.Err? <==> p.Malformed?
    ensures r.Ok? && p.Json? ==> r.value == p.entries
    ensures r.Ok? && !p.Json? ==> r.value == []
  {
    match p
    case Missing => Ok([])
    case EmptyText => Ok([])
    case Json(entries) => Ok(entries)
    case Malformed => Err(SyntaxError)
  }

  /** The id test of deleteData's filter. */
  function KeepsOtherIds(id: int): (keep: Entry -> bool)
    ensures forall e :: keep(e) <==> e.id != id
  {
    (e: Entry) => e.id != id
  }

  class DataManager {
    /** The entries, newest first. */
    var data: seq<Entry>
    /** The persisted copy, rewritten after every change. */
    var stored: Persisted

    /** The constructor loads the persisted list. JSON.parse throwing on malformed content
        aborts construction, so such content is excluded here. */
    constructor (persisted: Persisted)
      requires !persisted.Malformed?
      ensures data == Load(persisted).value && stored == persisted
    {
      data := Load(persisted).value;
      stored := persisted;
    }

    /** saveToLocalStorage: the persisted copy becomes the current list, and loading it
        back gives that list unchanged. */
    method SaveToLocalStorage()
      modifies this`stored
      ensures stored == Json(data)
      ensures Load(stored) == Ok(data)
    {
      stored := Json(data);
    }

    /** addData: the new entry, its text fields trimmed and its amount parsed, goes in
        front; the older entries follow in their order and the list is saved. When the
        submission passed validateInput, distinct NIKs stay distinct. */
    method AddData(nama: string, nik: string, alamat: string, nominal: string,
                   now: int, createdAt: string) returns (e: Entry)
      modifies this
      ensures e.id == now && e.tanggalInput == createdAt
      ensures e.nama == Text.Trim(nama) && e.nik == Text.Trim(nik) && e.alamat == Text.Trim(alamat)
      ensures e.nominal == Text.ParseInt(nominal)
      ensures data == [e] + old(data)
      ensures stored == Json(data)
      ensures UniqueNiks(old(data)) && ValidateInput(nama, nik, old(data)) == Accepted ==>
                UniqueNiks(data)
      ensures ValidateInput(nama, nik, old(data)) == Accepted ==> e.nik == nik
    {
      AcceptedAdd(data, now, nama, nik, alamat, nominal, createdAt);
      e := NewEntry(now, nama, nik, alamat, nominal, createdAt);
      data := [e] + data;
      SaveToLocalStorage();
    }

    /** deleteData: every entry with the given id goes, the others keep their order;
        an id that is not present leaves the list as it was. */
    method DeleteData(id: int)
      modifies this
      ensures data == Filter(old(data), KeepsOtherIds(id))
      ensures forall e :: e in data <==> e in old(data) && e.id != id
      ensures (forall e :: e in old(data) ==> e.id != id) ==> data == old(data)
      ensures stored == Json(data)
    {
      data := Filter(data, KeepsOtherIds(id));
      if forall e :: e in old(data) ==> e.id != id {
        FilterKeepsAll(old(data), KeepsOtherIds(id));
      }
      SaveToLocalStorage();
    }

    /** deleteAll: behind the confirmation, the list and its persisted copy are emptied
        and a warning notice is raised; declined, nothing changes. */
    method DeleteAll(confirmed: bool) returns (notice: Option<NoticeKind>)
      modifies this
      ensures confirmed ==> data == [] && stored == Json([]) && notice == Some(Warning)
      ensures !confirmed ==> data == old(data) && stored == old(stored) && notice == None
    {
      notice := None;
      if confirmed {
        data := [];
        SaveToLocalStorage();
        notice := Some(Warning);
      }
    }
  }
}
