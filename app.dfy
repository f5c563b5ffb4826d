/** The `App` component of the registration form: the customer list, the
    identifier of the record being edited, the four text inputs, and the
    handlers that change them. Network calls are not made here: their
    responses are parameters, and `HandleSubmit` returns the request the
    component would send. */
module Form {
  import opened Customers

  datatype Option<T> = None | Some(value: T)

  /** The request a submit sends to the `clientes` resource. Neither body
      carries the local `deleted` flag. */
  datatype Request =
    | NoRequest
    | Put(id: string, nome: string, email: string, telefone: string, cidade: string)
    | Post(nome: string, email: string, telefone: string, cidade: string)

  /** JavaScript truthiness of `editingUserId`: null and the empty string
      are both false, so only a non-empty identifier selects edit mode. */
  predicate IsEditing(editing: Option<string>)
    ensures editing == None ==> !IsEditing(editing)
    ensures editing == Some("") ==> !IsEditing(editing)
    ensures editing.Some? && |editing.value| > 0 ==> IsEditing(editing)
  {
    editing.Some? && editing.value != ""
  }

  /** The presence guard of submit: every input holds a non-empty value. */
  predicate Filled(name: string, number: string, email: string, city: string)
    ensures name == "" || number == "" || email == "" || city == "" ==> !Filled(name, number, email, city)
    ensures |name| > 0 && |number| > 0 && |email| > 0 && |city| > 0 ==> Filled(name, number, email, city)
  {
    name != "" && number != "" && email != "" && city != ""
  }

  class App {
    var users: seq<Customer>
    var editingUserId: Option<string>
    var nameValue: string
    var numberValue: string
    var emailValue: string
    var cityValue: string

    /** The rows the table renders. */
    function Rows(): (rows: seq<Customer>)
      reads this
      ensures forall c :: c in rows <==> c in users && !c.deleted
      ensures |rows| <= |users|
    {
      Visible(users)
    }

    /** The initial state: no customers, create mode, empty inputs. */
    constructor ()
      ensures users == [] && editingUserId == None
      ensures nameValue == "" && numberValue == "" && emailValue == "" && cityValue == ""
    {
      users := [];
      editingUserId := None;
      nameValue, numberValue, emailValue, cityValue := "", "", "", "";
    }

    /** Replaces the list by the array the API returned for `GET /clientes`. */
    method LoadRegister(response: seq<Customer>)
      modifies this`users
      ensures users == response
    {
      users := response;
    }

    /** Submit the form. `created` stands for the record the API returns
        for the create request; it is only used in create mode. */
    method HandleSubmit(created: Customer) returns (request: Request)
      modifies this
      // Guard: with an empty input nothing changes and nothing is sent.
      ensures !Filled(old(nameValue), old(numberValue), old(emailValue), old(cityValue)) ==>
        && request == NoRequest
        && users == old(users)
        && editingUserId == old(editingUserId)
        && nameValue == old(nameValue) && numberValue == old(numberValue)
        && emailValue == old(emailValue) && cityValue == old(cityValue)
      // Edit mode: the record built from the inputs is sent and replaces
      // every record with that id; the form returns to create mode.
      ensures Filled(old(nameValue), old(numberValue), old(emailValue), old(cityValue))
              && IsEditing(old(editingUserId)) ==>
        var updated := Customer(old(editingUserId).value, old(nameValue), old(emailValue),
                                old(numberValue), old(cityValue), false);
        && request == Put(updated.id, updated.nome, updated.email, updated.telefone, updated.cidade)
        && users == ReplaceById(old(users), old(editingUserId).value, updated)
        && editingUserId == None
      // Create mode: the inputs are posted and the returned record is
      // appended; the edit identifier is left as it was.
      ensures Filled(old(nameValue), old(numberValue), old(emailValue), old(cityValue))
              && !IsEditing(old(editingUserId)) ==>
        && request == Post(old(nameValue), old(emailValue), old(numberValue), old(cityValue))
        && users == old(users) + [created]
        && editingUserId == old(editingUserId)
      // After either branch the four inputs are cleared.
      ensures Filled(old(nameValue), old(numberValue), old(emailValue), old(cityValue)) ==>
        nameValue == "" && numberValue == "" && emailValue == "" && cityValue == ""
    {
      if !Filled(nameValue, numberValue, emailValue, cityValue) {
        return NoRequest;
      }
      if IsEditing(editingUserId) {
        var id := editingUserId.value;
        var updated := Customer(id, nameValue, emailValue, numberValue, cityValue, false);
        request := Put(id, nameValue, emailValue, numberValue, cityValue);
        users := ReplaceById(users, id, updated);
        editingUserId := None;
      } else {
        request := Post(nameValue, emailValue, numberValue, cityValue);
        users := users + [created];
      }
      nameValue := "";
      numberValue := "";
      emailValue := "";
      cityValue := "";
    }

    /** Enter edit mode for `user` and pre-fill the inputs with its values. */
    method HandleEdit(user: Customer)
      modifies this
      ensures editingUserId == Some(user.id)
      ensures nameValue == user.nome && numberValue == user.telefone
      ensures emailValue == user.email && cityValue == user.cidade
      ensures users == old(users)
    {
      editingUserId := Some(user.id);
      nameValue := user.nome;
      numberValue := user.telefone;
      emailValue := user.email;
      cityValue := user.cidade;
    }

    /** Soft delete: flag every record with `id`; nothing is sent. */
    method HandleDelete(id: string)
      modifies this`users
      ensures users == MarkDeleted(old(users), id)
      ensures forall c :: c in Rows() ==> c.id != id
      ensures HasId(old(users), id) ==> HasId(users, id)
    {
      users := MarkDeleted(users, id);
      DeleteHidesRows(old(users), id);
    }
  }
}
