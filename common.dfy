/** Values shared by the employee, initiative and survey modules. */
module Common {

  /** An optional value: a Java reference that may be null, or a field that was never set. */
  datatype Option<T> = None | Some(value: T)

  /** An employee as the initiative and survey code refer to one: by its integer employee id. */
  datatype Employee = Employee(employeeId: int)
}
