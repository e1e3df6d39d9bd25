/**
 * The Admin table as the route handlers see it through Prisma: look-ups by
 * id and by e-mail, and a partial `update` in which an absent field is left
 * alone. The table's e-mail column is unique (the change-email route looks an
 * admin up by e-mail with `findUnique`), so an update that would give a
 * second row the same e-mail is refused by the store.
 */
module Store {
  import opened Common

  /** An Admin row; `createdAt` is never read or written by the core and is left out. */
  datatype Admin = Admin(id: int, name: string, email: string, password: string, image: Option<string>)

  /** One column of a Prisma `update`: `undefined` keeps the stored value. */
  datatype FieldUpdate<T> = Keep | SetTo(value: T)

  /** The `data` of `prisma.admin.update`; `image: SetTo(None)` writes SQL NULL. */
  datatype AdminPatch = AdminPatch(name: FieldUpdate<string>, email: FieldUpdate<string>, image: FieldUpdate<Option<string>>)

  function Updated<T>(current: T, u: FieldUpdate<T>): T
  {
    if u.SetTo? then u.value else current
  }

  /** The row after the update: the three patchable columns follow the patch, id and password stay. */
  function ApplyPatch(a: Admin, p: AdminPatch): (b: Admin)
    ensures b.id == a.id && b.password == a.password
    ensures p.name.Keep? && p.email.Keep? && p.image.Keep? ==> b == a
  {
    a.(name := Updated(a.name, p.name), email := Updated(a.email, p.email), image := Updated(a.image, p.image))
  }

  ghost predicate EmailsUnique(admins: map<int, Admin>)
  {
    forall i, j | i in admins && j in admins && i != j :: admins[i].email != admins[j].email
  }

  ghost predicate KeysAreIds(admins: map<int, Admin>)
  {
    forall i | i in admins :: admins[i].id == i
  }

  /** `findUnique({ where: { email } })` finds a row other than `id`. */
  predicate TakenByOther(admins: map<int, Admin>, email: string, id: int)
  {
    exists other | other in admins :: other != id && admins[other].email == email
  }

  /** The unique e-mail constraint would reject writing `p` to row `id`. */
  predicate Conflicts(admins: map<int, Admin>, id: int, p: AdminPatch)
  {
    p.email.SetTo? && TakenByOther(admins, p.email.value, id)
  }

  /** Writing a patch the constraint admits keeps the table's invariants. */
  lemma {:induction false} UpdateKeepsInvariants(admins: map<int, Admin>, id: int, p: AdminPatch)
    requires EmailsUnique(admins) && KeysAreIds(admins)
    requires id in admins && !Conflicts(admins, id, p)
    ensures var after := admins[id := ApplyPatch(admins[id], p)];
      EmailsUnique(after) && KeysAreIds(after)
  {
    var after := admins[id := ApplyPatch(admins[id], p)];
    forall i, j | i in after && j in after && i != j
      ensures after[i].email != after[j].email
    {
      if i == id {
        assert p.email.SetTo? ==> !(j != id && admins[j].email == p.email.value);
      } else if j == id {
        assert p.email.SetTo? ==> !(i != id && admins[i].email == p.email.value);
      }
    }
  }

  class AdminStore {
    var admins: map<int, Admin>

    /** E-mails are unique and every row is stored under its own id. */
    ghost predicate Valid()
      reads this
    {
      EmailsUnique(admins) && KeysAreIds(admins)
    }

    constructor (initial: map<int, Admin>)
      requires EmailsUnique(initial) && KeysAreIds(initial)
      ensures Valid() && admins == initial
    {
      admins := initial;
    }

    /** `findUnique({ where: { id } })` */
    function FindById(id: int): (r: Option<Admin>)
      reads this
      ensures r.Some? <==> id in admins
      ensures r.Some? ==> r.value == admins[id]
    {
      if id in admins then Some(admins[id]) else None
    }

    /** `update({ where: { id }, data })`; refused (nothing written) when the new e-mail belongs to another row. */
    method Update(id: int, p: AdminPatch) returns (ok: bool)
      requires Valid() && id in admins
      modifies this
      ensures Valid()
      ensures ok <==> !Conflicts(old(admins), id, p)
      ensures admins == if ok then old(admins)[id := ApplyPatch(old(admins)[id], p)] else old(admins)
    {
      ok := !Conflicts(admins, id, p);
      if ok {
        UpdateKeepsInvariants(admins, id, p);
        admins := admins[id := ApplyPatch(admins[id], p)];
      }
    }
  }
}
