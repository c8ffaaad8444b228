/** The many-to-many link between users and cars, kept on both sides. */
module Accounts {

  class Car {
    const plateNumber: string
    /** The users linked to this car. */
    var users: set<User>

    constructor (plateNumber: string)
      ensures this.plateNumber == plateNumber && users == {}
    {
      this.plateNumber := plateNumber;
      users := {};
    }
  }

  class User {
    var name: string
    var role: string
    /** The cars linked to this user. */
    var cars: set<Car>

    /** A new user has no cars. */
    constructor (name: string, role: string)
      ensures this.name == name && this.role == role && cars == {}
    {
      this.name := name;
      this.role := role;
      cars := {};
    }

    /** Links the car on both sides; sets make this idempotent. */
    method AddCar(car: Car)
      modifies this, car
      ensures cars == old(cars) + {car}
      ensures car.users == old(car.users) + {this}
      ensures name == old(name) && role == old(role)
    {
      cars := cars + {car};
      car.users := car.users + {this};
    }

    /** Unlinks the car on both sides. */
    method RemoveCar(car: Car)
      modifies this, car
      ensures cars == old(cars) - {car}
      ensures car.users == old(car.users) - {this}
      ensures name == old(name) && role == old(role)
    {
      cars := cars - {car};
      car.users := car.users - {this};
    }
  }

  /** Every link among the given users and cars is recorded on both sides. */
  ghost predicate Mutual(users: set<User>, cars: set<Car>)
    reads users, cars
  {
    forall u, c :: u in users && c in cars ==> (c in u.cars <==> u in c.users)
  }

  /** Adding a car twice is adding it once, and removing a car that was not
      linked before restores both sides; other cars are not touched. */
  method AddRemoveScenario(u: User, c: Car, other: Car)
    requires c !in u.cars && u !in c.users && other != c
    modifies u, c
    ensures u.cars == old(u.cars) && c.users == old(c.users)
    ensures other.users == old(other.users)
  {
    u.AddCar(c);
    ghost var afterOne := (u.cars, c.users);
    u.AddCar(c);
    assert (u.cars, c.users) == afterOne;
    assert c in u.cars && u in c.users;
    u.RemoveCar(c);
    assert c !in u.cars && u !in c.users;
  }

  /** Linking a user and a car keeps the two sides consistent. */
  method LinkKeepsMutual(users: set<User>, cars: set<Car>, u: User, c: Car)
    requires Mutual(users, cars)
    modifies u, c
    ensures Mutual(users, cars)
    ensures c in u.cars && u in c.users
  {
    u.AddCar(c);
  }

  /** Unlinking a user and a car keeps the two sides consistent. */
  method UnlinkKeepsMutual(users: set<User>, cars: set<Car>, u: User, c: Car)
    requires Mutual(users, cars)
    modifies u, c
    ensures Mutual(users, cars)
    ensures c !in u.cars && u !in c.users
  {
    u.RemoveCar(c);
  }
}
