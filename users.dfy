/** The user record delivered by the randomuser endpoint, field for field. */
module Users {

  datatype Gender = Male | Female

  datatype Name = Name(title: string, first: string, last: string)

  /** Date of birth: an ISO date string and the age in years. */
  datatype Dob = Dob(date: string, age: int)

  datatype Location = Location(city: string, country: string)

  /** Three picture URLs. */
  datatype Picture = Picture(thumbnail: string, medium: string, large: string)

  /** Registration: an ISO date string and the account's age in years. */
  datatype Registered = Registered(date: string, age: int)

  datatype User = User(
    gender: Gender,
    name: Name,
    email: string,
    phone: string,
    dob: Dob,
    location: Location,
    picture: Picture,
    registered: Registered)

  /** The text `${first} ${last}` that the list screen searches and sorts by name. */
  function FullName(u: User): string {
    u.name.first + " " + u.name.last
  }
}
